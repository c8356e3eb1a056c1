/**
 * Pairwise cosine similarity of TF-IDF vectors: the dot product over the
 * shared terms, the Euclidean length, the guarded cosine and the list of
 * all document pairs with their display names.
 */
module Similarity {
  import opened Numerics
  import opened CType
  import opened Decimal
  import opened FeatureExtraction

  /** The term-wise product of two vectors; a term missing from either contributes 0. */
  function Product(a: WeightVector, b: WeightVector): string -> real {
    k => Weight(a, k) * Weight(b, k)
  }

  /** The term-wise square of a vector. */
  function Square(a: WeightVector): string -> real {
    k => Weight(a, k) * Weight(a, k)
  }

  /** The dot product: the sum of a[k] * b[k] over the terms both vectors hold. */
  ghost function Dot(a: WeightVector, b: WeightVector): real {
    SetSum(a.Keys * b.Keys, Product(a, b))
  }

  /** The sum of the squared weights. */
  ghost function SumSquares(a: WeightVector): real {
    SetSum(a.Keys, Square(a))
  }

  /** The Euclidean length. */
  ghost function Norm(a: WeightVector, sqrt: real -> real): real {
    sqrt(SumSquares(a))
  }

  /** Every weight of the vector is non-negative. */
  ghost predicate NonNegative(a: WeightVector) {
    forall k :: k in a ==> 0.0 <= a[k]
  }

  ghost predicate AllNonNegative(vectors: seq<WeightVector>) {
    forall i :: 0 <= i < |vectors| ==> NonNegative(vectors[i])
  }

  /**
   * Cosine similarity of documents i and j: 0 for an index out of range,
   * 1 for the same index, 0 if either vector has length 0, and otherwise
   * the dot product over the product of the lengths.
   */
  ghost function Cosine(vectors: seq<WeightVector>, i: int, j: int, sqrt: real -> real): real {
    if i < 0 || i >= |vectors| || j < 0 || j >= |vectors| then 0.0
    else if i == j then 1.0
    else
      var mag1, mag2 := Norm(vectors[i], sqrt), Norm(vectors[j], sqrt);
      if mag1 == 0.0 || mag2 == 0.0 then 0.0
      else Dot(vectors[i], vectors[j]) / (mag1 * mag2)
  }

  /** For two distinct documents of the corpus, the score is the quotient unless a magnitude is zero. */
  lemma CosineOfDistinctIndices(vectors: seq<WeightVector>, i: int, j: int, sqrt: real -> real, dot: real, mag1: real, mag2: real)
    requires 0 <= i < |vectors| && 0 <= j < |vectors| && i != j
    requires dot == Dot(vectors[i], vectors[j])
    requires mag1 == Norm(vectors[i], sqrt) && mag2 == Norm(vectors[j], sqrt)
    ensures Cosine(vectors, i, j, sqrt) == if mag1 == 0.0 || mag2 == 0.0 then 0.0 else dot / (mag1 * mag2)
  {
    var m := mag1 * mag2;
    if mag1 != 0.0 && mag2 != 0.0 {
      assert Cosine(vectors, i, j, sqrt) == dot / m;
    }
  }

  /**
   * The guards, in the order they apply: an index out of range gives 0 even
   * when the two indices are equal, and a valid index compared with itself
   * gives 1 whatever its vector holds.
   */
  lemma CosineGuards(vectors: seq<WeightVector>, i: int, j: int, sqrt: real -> real)
    ensures !(0 <= i < |vectors|) || !(0 <= j < |vectors|) ==> Cosine(vectors, i, j, sqrt) == 0.0
    ensures 0 <= i < |vectors| && i == j ==> Cosine(vectors, i, j, sqrt) == 1.0
  {
  }

  /** The dot product does not depend on the order of its arguments. */
  lemma DotSymmetric(a: WeightVector, b: WeightVector)
    ensures Dot(a, b) == Dot(b, a)
  {
    assert a.Keys * b.Keys == b.Keys * a.Keys;
    SetSumCongruent(a.Keys * b.Keys, Product(a, b), Product(b, a));
  }

  /** The sum of squares is non-negative, and zero exactly when every weight is. */
  lemma SumSquaresZero(a: WeightVector)
    ensures 0.0 <= SumSquares(a)
    ensures SumSquares(a) == 0.0 <==> forall k :: k in a ==> a[k] == 0.0
  {
    forall k | k in a.Keys ensures 0.0 <= Square(a)(k) {
      assert Square(a)(k) == a[k] * a[k];
    }
    SetSumNonNegative(a.Keys, Square(a));
    forall k | k in a ensures Square(a)(k) == 0.0 <==> a[k] == 0.0 {
      if Square(a)(k) == 0.0 {
        ProductZero(a[k], a[k]);
      }
    }
  }

  /** The length is non-negative, and zero exactly when every weight is (the empty map included). */
  lemma NormZero(a: WeightVector, sqrt: real -> real)
    requires IsSqrt(sqrt)
    ensures 0.0 <= Norm(a, sqrt)
    ensures Norm(a, sqrt) == 0.0 <==> forall k :: k in a ==> a[k] == 0.0
  {
    SumSquaresZero(a);
    SqrtZero(sqrt, SumSquares(a));
  }

  /**
   * The square of dot is at most sa * sb. This predicate, StepPremises and
   * CauchySchwarzSums only package the arithmetic so that each proof step
   * stays small for the solver.
   */
  ghost predicate SquareBelow(dot: real, sa: real, sb: real) {
    dot * dot <= sa * sb
  }

  /** The Cauchy–Schwarz inequality for sums over a finite set of terms. */
  lemma {:induction false} CauchySchwarz(s: set<string>, a: WeightVector, b: WeightVector)
    ensures SquareBelow(SetSum(s, Product(a, b)), SetSum(s, Square(a)), SetSum(s, Square(b)))
    decreases s
  {
    if s == {} {
      assert SetSum(s, Product(a, b)) == 0.0 && SetSum(s, Square(a)) == 0.0;
    } else {
      var x := Pick(s);
      CauchySchwarz(s - {x}, a, b);
      CauchySchwarzExtend(s, a, b, x);
    }
  }

  /** The inductive step of CauchySchwarz: the bound survives adding the term x. */
  lemma CauchySchwarzExtend(s: set<string>, a: WeightVector, b: WeightVector, x: string)
    requires x in s
    requires SquareBelow(SetSum(s - {x}, Product(a, b)), SetSum(s - {x}, Square(a)), SetSum(s - {x}, Square(b)))
    ensures SquareBelow(SetSum(s, Product(a, b)), SetSum(s, Square(a)), SetSum(s, Square(b)))
  {
    StepFacts(s, a, b, x);
    CauchySchwarzSums(SetSum(s, Product(a, b)), SetSum(s, Square(a)), SetSum(s, Square(b)),
      Product(a, b)(x), Square(a)(x), Square(b)(x),
      SetSum(s - {x}, Product(a, b)), SetSum(s - {x}, Square(a)), SetSum(s - {x}, Square(b)));
  }

  /**
   * The premises of one Cauchy–Schwarz step: the sums dot, sa and sb are the
   * next terms t, ta, tb added to the earlier sums d, p, q, which obey the bound.
   */
  ghost predicate StepPremises(dot: real, sa: real, sb: real, t: real, ta: real, tb: real, d: real, p: real, q: real) {
    0.0 <= ta && 0.0 <= tb && t * t == ta * tb
    && 0.0 <= p && 0.0 <= q && SquareBelow(d, p, q)
    && dot == t + d && sa == ta + p && sb == tb + q
  }

  /** Taking the three sums apart at x gives the premises of a Cauchy–Schwarz step. */
  lemma StepFacts(s: set<string>, a: WeightVector, b: WeightVector, x: string)
    requires x in s
    requires SquareBelow(SetSum(s - {x}, Product(a, b)), SetSum(s - {x}, Square(a)), SetSum(s - {x}, Square(b)))
    ensures StepPremises(SetSum(s, Product(a, b)), SetSum(s, Square(a)), SetSum(s, Square(b)),
      Product(a, b)(x), Square(a)(x), Square(b)(x),
      SetSum(s - {x}, Product(a, b)), SetSum(s - {x}, Square(a)), SetSum(s - {x}, Square(b)))
  {
    SquaresNonNegative(s - {x}, a);
    SquaresNonNegative(s - {x}, b);
    SetSumRemove(s, Product(a, b), x);
    SetSumRemove(s, Square(a), x);
    SetSumRemove(s, Square(b), x);
    TermIdentity(a, b, x);
  }

  /** The product term squared is the product of the square terms, and those are non-negative. */
  lemma TermIdentity(a: WeightVector, b: WeightVector, x: string)
    ensures Product(a, b)(x) * Product(a, b)(x) == Square(a)(x) * Square(b)(x)
    ensures 0.0 <= Square(a)(x) && 0.0 <= Square(b)(x)
  {
    var u, v := Weight(a, x), Weight(b, x);
    assert (u * v) * (u * v) == (u * u) * (v * v);
  }

  /** CauchySchwarzStep, stated with SquareBelow. */
  lemma CauchySchwarzSums(dot: real, sa: real, sb: real, t: real, ta: real, tb: real, d: real, p: real, q: real)
    requires StepPremises(dot, sa, sb, t, ta, tb, d, p, q)
    ensures SquareBelow(dot, sa, sb)
  {
    CauchySchwarzStep(t, ta, tb, d, p, q);
  }

  lemma SquaresNonNegative(s: set<string>, a: WeightVector)
    ensures 0.0 <= SetSum(s, Square(a))
  {
    forall k | k in s ensures 0.0 <= Square(a)(k) {
      var w := Weight(a, k);
      assert Square(a)(k) == w * w;
    }
    SetSumNonNegative(s, Square(a));
  }

  lemma ProductMonotone(p1: real, p2: real, q1: real, q2: real)
    requires 0.0 <= p1 <= p2 && 0.0 <= q1 <= q2
    ensures p1 * q1 <= p2 * q2
  {
    assert p1 * q1 <= p2 * q1;
    assert p2 * q1 <= p2 * q2;
  }

  /** The squared dot product is at most the product of the sums of squares. */
  lemma DotBound(a: WeightVector, b: WeightVector)
    ensures Dot(a, b) * Dot(a, b) <= SumSquares(a) * SumSquares(b)
  {
    var k := a.Keys * b.Keys;
    var pa, pb := SetSum(k, Square(a)), SetSum(k, Square(b));
    CauchySchwarz(k, a, b);
    assert 0.0 <= pa <= SumSquares(a) by {
      SquaresNonNegative(k, a);
      SquaresOnKeysNonNegative(a);
      SetSumSubset(k, a.Keys, Square(a));
    }
    assert 0.0 <= pb <= SumSquares(b) by {
      SquaresNonNegative(k, b);
      SquaresOnKeysNonNegative(b);
      SetSumSubset(k, b.Keys, Square(b));
    }
    BoundChain(Dot(a, b), pa, pb, SumSquares(a), SumSquares(b));
  }

  lemma SquaresOnKeysNonNegative(a: WeightVector)
    ensures forall t :: t in a.Keys ==> 0.0 <= Square(a)(t)
  {
    forall t | t in a.Keys ensures 0.0 <= Square(a)(t) {
      assert Square(a)(t) == a[t] * a[t];
    }
  }

  lemma BoundChain(dot: real, p1: real, q1: real, p2: real, q2: real)
    requires SquareBelow(dot, p1, q1)
    requires 0.0 <= p1 <= p2 && 0.0 <= q1 <= q2
    ensures dot * dot <= p2 * q2
  {
    ProductMonotone(p1, p2, q1, q2);
  }

  /** The partial dot product over the terms done of a, as one more term of a joins them. */
  lemma DotStep(a: WeightVector, b: WeightVector, done: set<string>, x: string)
    requires x in a && x !in done
    ensures SetSum((done + {x}) * b.Keys, Product(a, b))
      == SetSum(done * b.Keys, Product(a, b)) + (if x in b then a[x] * b[x] else 0.0)
  {
    if x in b {
      ProductAt(a, b, x);
    }
    SetSumAddWithin(done, b.Keys, Product(a, b), x);
  }

  lemma ProductAt(a: WeightVector, b: WeightVector, x: string)
    requires x in a && x in b
    ensures Product(a, b)(x) == a[x] * b[x]
  {
  }

  /** Vectors with non-negative weights have a non-negative dot product. */
  lemma DotNonNegative(a: WeightVector, b: WeightVector)
    requires NonNegative(a) && NonNegative(b)
    ensures 0.0 <= Dot(a, b)
  {
    forall t | t in a.Keys * b.Keys ensures 0.0 <= Product(a, b)(t) {
      assert Product(a, b)(t) == a[t] * b[t];
    }
    SetSumNonNegative(a.Keys * b.Keys, Product(a, b));
  }

  /** Vectors without a shared term have dot product 0. */
  lemma DotDisjoint(a: WeightVector, b: WeightVector)
    requires a.Keys * b.Keys == {}
    ensures Dot(a, b) == 0.0
  {
  }

  /** The dot product of a vector with itself is its sum of squares. */
  lemma DotSelf(a: WeightVector)
    ensures Dot(a, a) == SumSquares(a)
  {
    assert a.Keys * a.Keys == a.Keys;
    SetSumCongruent(a.Keys, Product(a, a), Square(a));
  }

  lemma QuotientSelf(x: real, y: real)
    requires x == y && y != 0.0
    ensures x / y == 1.0
  {
  }

  lemma QuotientUnitRange(d: real, m: real)
    requires 0.0 <= d <= m && 0.0 < m
    ensures 0.0 <= d / m <= 1.0
  {
  }

  /** With non-negative weights, the cosine of two vectors of non-zero length lies in [0, 1]. */
  lemma CosineOfVectorsInUnitRange(a: WeightVector, b: WeightVector, sqrt: real -> real)
    requires IsSqrt(sqrt) && NonNegative(a) && NonNegative(b)
    requires Norm(a, sqrt) != 0.0 && Norm(b, sqrt) != 0.0
    ensures 0.0 <= Dot(a, b) / (Norm(a, sqrt) * Norm(b, sqrt)) <= 1.0
  {
    NormZero(a, sqrt);
    NormZero(b, sqrt);
    SumSquaresZero(a);
    SumSquaresZero(b);
    DotNonNegative(a, b);
    DotBound(a, b);
    BelowProductOfRoots(sqrt, Dot(a, b), SumSquares(a), SumSquares(b));
    PositiveProduct(Norm(a, sqrt), Norm(b, sqrt));
    QuotientUnitRange(Dot(a, b), Norm(a, sqrt) * Norm(b, sqrt));
  }

  /** For vectors with non-negative weights every cosine similarity lies in [0, 1]. */
  lemma CosineInUnitRange(vectors: seq<WeightVector>, i: int, j: int, sqrt: real -> real)
    requires IsSqrt(sqrt) && AllNonNegative(vectors)
    ensures 0.0 <= Cosine(vectors, i, j, sqrt) <= 1.0
  {
    if 0 <= i < |vectors| && 0 <= j < |vectors| && i != j {
      var a, b := vectors[i], vectors[j];
      if Norm(a, sqrt) != 0.0 && Norm(b, sqrt) != 0.0 {
        CosineOfVectorsInUnitRange(a, b, sqrt);
      }
    }
  }

  /** Cosine similarity is symmetric in the two indices. */
  lemma CosineSymmetric(vectors: seq<WeightVector>, i: int, j: int, sqrt: real -> real)
    ensures Cosine(vectors, i, j, sqrt) == Cosine(vectors, j, i, sqrt)
  {
    if 0 <= i < |vectors| && 0 <= j < |vectors| {
      DotSymmetric(vectors[i], vectors[j]);
      assert Norm(vectors[i], sqrt) * Norm(vectors[j], sqrt)
        == Norm(vectors[j], sqrt) * Norm(vectors[i], sqrt);
    }
  }

  /** Two different documents with equal vectors of non-zero length have similarity 1. */
  lemma CosineOfEqualVectors(vectors: seq<WeightVector>, i: int, j: int, sqrt: real -> real)
    requires IsSqrt(sqrt) && 0 <= i < |vectors| && 0 <= j < |vectors|
    requires vectors[i] == vectors[j] && Norm(vectors[i], sqrt) != 0.0
    ensures Cosine(vectors, i, j, sqrt) == 1.0
  {
    var a := vectors[i];
    var m := Norm(a, sqrt);
    DotSelf(a);
    SumSquaresZero(a);
    SqrtZero(sqrt, SumSquares(a));
    assert m * m == SumSquares(a) != 0.0;
    if i != j {
      assert Cosine(vectors, i, j, sqrt) == SumSquares(a) / (m * m);
      QuotientSelf(SumSquares(a), m * m);
    }
  }

  /** Two different documents whose vectors have dot product 0 have similarity 0. */
  lemma CosineOfOrthogonalVectors(vectors: seq<WeightVector>, i: int, j: int, sqrt: real -> real)
    requires 0 <= i < |vectors| && 0 <= j < |vectors| && i != j
    requires Dot(vectors[i], vectors[j]) == 0.0
    ensures Cosine(vectors, i, j, sqrt) == 0.0
  {
    var mag1, mag2 := Norm(vectors[i], sqrt), Norm(vectors[j], sqrt);
    CosineOfDistinctIndices(vectors, i, j, sqrt, 0.0, mag1, mag2);
    if mag1 != 0.0 && mag2 != 0.0 {
      var m := mag1 * mag2;
      assert 0.0 / m == 0.0;
    }
  }

  /** Two different documents whose weight maps have no key in common have similarity 0. */
  lemma CosineOfDisjointVectors(vectors: seq<WeightVector>, i: int, j: int, sqrt: real -> real)
    requires 0 <= i < |vectors| && 0 <= j < |vectors| && i != j
    requires vectors[i].Keys * vectors[j].Keys == {}
    ensures Cosine(vectors, i, j, sqrt) == 0.0
  {
    DotDisjoint(vectors[i], vectors[j]);
    CosineOfOrthogonalVectors(vectors, i, j, sqrt);
  }

  /** A document whose weights are all 0 (an empty document, say) has similarity 0 to every other. */
  lemma CosineOfZeroVector(vectors: seq<WeightVector>, i: int, j: int, sqrt: real -> real)
    requires IsSqrt(sqrt) && 0 <= i < |vectors| && i != j
    requires forall k :: k in vectors[i] ==> vectors[i][k] == 0.0
    ensures Cosine(vectors, i, j, sqrt) == 0.0
    ensures Cosine(vectors, j, i, sqrt) == 0.0
  {
    NormZero(vectors[i], sqrt);
  }

  /** One row of compareAll: the two display names and the score. */
  datatype SimilarityResult = SimilarityResult(name1: string, name2: string, score: real)

  /**
   * The display name of document k: its given name when there is one, else
   * "Document" followed by a decimal numeral that reads back as k.
   */
  function NameOf(names: seq<string>, k: nat): (name: string)
    ensures k < |names| ==> name == names[k]
    ensures k >= |names| ==> (
      |name| > 8 && name[..8] == "Document" &&
      var suffix := name[8..];
      (forall m :: 0 <= m < |suffix| ==> IsDigit(suffix[m])) && DecimalValue(suffix) == k)
  {
    if k < |names| then names[k]
    else
      var digits := DecimalString(k);
      DecimalRoundTrip(k);
      assert ("Document" + digits)[8..] == digits;
      "Document" + digits
  }

  /** Different documents without a given name get different fallback names. */
  lemma FallbackNamesDistinct(names: seq<string>, k: nat, m: nat)
    requires |names| <= k && |names| <= m && k != m
    ensures NameOf(names, k) != NameOf(names, m)
  {
  }

  /** The pairs (i, j) with i < j < n, for one i, in increasing j. */
  function Row(i: nat, n: nat): seq<(nat, nat)>
    requires i < n
  {
    seq(n - i - 1, k requires 0 <= k < n - i - 1 => (i, i + 1 + k))
  }

  lemma RowElement(i: nat, n: nat, k: nat)
    requires i < n && k < n - i - 1
    ensures Row(i, n)[k] == (i, i + 1 + k)
  {
  }

  lemma AppendSlice<T>(prev: seq<T>, row: seq<T>, k: nat)
    requires k < |row|
    ensures prev + row[..k + 1] == prev + row[..k] + [row[k]]
  {
    assert row[..k + 1] == row[..k] + [row[k]];
  }

  /** The pairs (i, j) with i < bound and i < j < n, in nested-loop order. */
  function PairsUpTo(bound: nat, n: nat): seq<(nat, nat)>
    requires bound <= n
  {
    if bound == 0 then [] else PairsUpTo(bound - 1, n) + Row(bound - 1, n)
  }

  /** All unordered pairs of n documents, in nested-loop order. */
  function Pairs(n: nat): seq<(nat, nat)> {
    PairsUpTo(n, n)
  }

  /** (i, j) comes before (k, m) in lexicographic order. */
  predicate PairLess(p: (nat, nat), q: (nat, nat)) {
    p.0 < q.0 || (p.0 == q.0 && p.1 < q.1)
  }

  /** The first bound rows hold bound * (2n - bound - 1) / 2 pairs. */
  lemma {:induction false} PairsUpToLength(bound: nat, n: nat)
    requires bound <= n
    ensures 2 * |PairsUpTo(bound, n)| == bound * (2 * n - bound - 1)
  {
    if bound > 0 {
      var i := bound - 1;
      PairsUpToLength(i, n);
      assert |PairsUpTo(bound, n)| == |PairsUpTo(i, n)| + (n - i - 1);
      RowCountStep(i, n);
    }
  }

  lemma RowCountStep(i: int, n: int)
    ensures (i + 1) * (2 * n - (i + 1) - 1) == i * (2 * n - i - 1) + 2 * (n - i - 1)
  {
    calc {
      (i + 1) * (2 * n - i - 2);
      i * (2 * n - i - 2) + (2 * n - i - 2);
      i * (2 * n - i - 1) - i + (2 * n - i - 2);
    }
  }

  /** The first bound rows hold exactly the pairs (i, j) with i < bound and i < j < n. */
  lemma {:induction false} PairsUpToMembers(bound: nat, n: nat)
    requires bound <= n
    ensures forall p :: p in PairsUpTo(bound, n) <==> p.0 < bound && p.0 < p.1 < n
  {
    if bound > 0 {
      var i := bound - 1;
      PairsUpToMembers(i, n);
      var prev, row := PairsUpTo(i, n), Row(i, n);
      assert PairsUpTo(bound, n) == prev + row;
      forall p: (nat, nat) ensures p in prev + row <==> p.0 < bound && p.0 < p.1 < n {
        if p.0 == i && p.0 < p.1 < n {
          assert row[p.1 - i - 1] == p;
        }
      }
    }
  }

  /** The first bound rows list their pairs in increasing lexicographic order. */
  lemma {:induction false} PairsUpToOrdered(bound: nat, n: nat)
    requires bound <= n
    ensures forall x, y :: 0 <= x < y < |PairsUpTo(bound, n)| ==>
      PairLess(PairsUpTo(bound, n)[x], PairsUpTo(bound, n)[y])
  {
    if bound > 0 {
      var i := bound - 1;
      PairsUpToOrdered(i, n);
      PairsUpToMembers(i, n);
      var prev, row := PairsUpTo(i, n), Row(i, n);
      assert PairsUpTo(bound, n) == prev + row;
      forall x, y | 0 <= x < y < |prev + row| ensures PairLess((prev + row)[x], (prev + row)[y]) {
        if x < |prev| && y >= |prev| {
          assert prev[x] in prev;
        }
      }
    }
  }

  /**
   * compareAll lists n(n-1)/2 pairs, each pair (i, j) with i < j < n exactly
   * once, in lexicographic order.
   */
  lemma PairsProperties(n: nat)
    ensures 2 * |Pairs(n)| == n * (n - 1)
    ensures forall p :: p in Pairs(n) <==> p.0 < p.1 < n
    ensures forall x, y :: 0 <= x < y < |Pairs(n)| ==> PairLess(Pairs(n)[x], Pairs(n)[y])
  {
    PairsUpToLength(n, n);
    PairsUpToMembers(n, n);
    PairsUpToOrdered(n, n);
  }

  /** The result compareAll reports for pair p. */
  ghost function Compare(vectors: seq<WeightVector>, names: seq<string>, sqrt: real -> real, p: (nat, nat)): SimilarityResult {
    SimilarityResult(NameOf(names, p.0), NameOf(names, p.1), Cosine(vectors, p.0, p.1, sqrt))
  }

  ghost function CompareEach(vectors: seq<WeightVector>, names: seq<string>, sqrt: real -> real, ps: seq<(nat, nat)>): seq<SimilarityResult> {
    seq(|ps|, k requires 0 <= k < |ps| => Compare(vectors, names, sqrt, ps[k]))
  }

  /** One more pair of row i extends the prefix of the nested-loop order by that pair. */
  lemma RowPrefixSnoc(i: nat, j: nat, n: nat)
    requires i < j < n
    ensures PairsUpTo(i, n) + Row(i, n)[..j + 1 - i - 1] == PairsUpTo(i, n) + Row(i, n)[..j - i - 1] + [(i, j)]
  {
    var k := j - i - 1;
    assert j + 1 - i - 1 == k + 1;
    RowElement(i, n, k);
    assert Row(i, n)[k] == (i, j);
    AppendSlice(PairsUpTo(i, n), Row(i, n), k);
  }

  lemma CompareEachSnoc(vectors: seq<WeightVector>, names: seq<string>, sqrt: real -> real, ps: seq<(nat, nat)>, p: (nat, nat))
    ensures CompareEach(vectors, names, sqrt, ps + [p])
      == CompareEach(vectors, names, sqrt, ps) + [Compare(vectors, names, sqrt, p)]
  {
  }

  /** What compareAll returns: every pair of documents, named and scored. */
  ghost function Comparisons(vectors: seq<WeightVector>, names: seq<string>, sqrt: real -> real): seq<SimilarityResult> {
    CompareEach(vectors, names, sqrt, Pairs(|vectors|))
  }

  /**
   * The comparisons of n documents: n(n-1)/2 rows, row x naming and scoring
   * the x-th pair, every score in [0, 1] when the weights are non-negative.
   */
  lemma ComparisonsProperties(vectors: seq<WeightVector>, names: seq<string>, sqrt: real -> real)
    ensures 2 * |Comparisons(vectors, names, sqrt)| == |vectors| * (|vectors| - 1)
    ensures forall x :: 0 <= x < |Comparisons(vectors, names, sqrt)| ==>
      var p := Pairs(|vectors|)[x];
      p.0 < p.1 < |vectors|
      && Comparisons(vectors, names, sqrt)[x] == SimilarityResult(NameOf(names, p.0), NameOf(names, p.1), Cosine(vectors, p.0, p.1, sqrt))
    ensures IsSqrt(sqrt) && AllNonNegative(vectors) ==>
      forall x :: 0 <= x < |Comparisons(vectors, names, sqrt)| ==>
        0.0 <= Comparisons(vectors, names, sqrt)[x].score <= 1.0
  {
    var n := |vectors|;
    PairsProperties(n);
    forall x | 0 <= x < |Pairs(n)| ensures Pairs(n)[x].0 < Pairs(n)[x].1 < n {
      assert Pairs(n)[x] in Pairs(n);
    }
    if IsSqrt(sqrt) && AllNonNegative(vectors) {
      forall x | 0 <= x < |Pairs(n)| ensures 0.0 <= Comparisons(vectors, names, sqrt)[x].score <= 1.0 {
        CosineInUnitRange(vectors, Pairs(n)[x].0, Pairs(n)[x].1, sqrt);
      }
    }
  }

  /** The engine: TF-IDF vectors and display names fixed at construction. `sqrt` stands for std::sqrt. */
  class SimilarityChecker {
    const tfidfVectors: seq<WeightVector>
    const documentNames: seq<string>
    const sqrt: real -> real

    constructor(vectors: seq<WeightVector>, names: seq<string>, sqrt: real -> real)
      ensures tfidfVectors == vectors && documentNames == names && this.sqrt == sqrt
    {
      tfidfVectors := vectors;
      documentNames := names;
      this.sqrt := sqrt;
    }

    /** Runs over the smaller map's terms and adds the products of the terms the larger one also holds. */
    method DotProduct(vec1: WeightVector, vec2: WeightVector) returns (result: real)
      ensures result == Dot(vec1, vec2)
    {
      if |vec1| < |vec2| {
        result := SumOfProducts(vec1, vec2);
      } else {
        result := SumOfProducts(vec2, vec1);
        DotSymmetric(vec1, vec2);
      }
    }

    /** The loop of DotProduct: the products over the terms of smaller that larger also holds. */
    method SumOfProducts(smaller: WeightVector, larger: WeightVector) returns (result: real)
      ensures result == Dot(smaller, larger)
    {
      result := 0.0;
      var pending := smaller.Keys;
      ghost var done: set<string> := {};
      while pending != {}
        invariant pending <= smaller.Keys && done == smaller.Keys - pending
        invariant result == SetSum(done * larger.Keys, Product(smaller, larger))
        decreases pending
      {
        var term :| term in pending;
        var value1 := smaller[term];
        DotStep(smaller, larger, done, term);
        if term in larger {
          var value2 := larger[term];
          result := result + value1 * value2;
        }
        done := done + {term};
        pending := pending - {term};
      }
      assert done == smaller.Keys;
    }

    /** Sums the squared weights and takes the square root. */
    method Magnitude(vec: WeightVector) returns (m: real)
      ensures m == Norm(vec, sqrt)
    {
      var sum := 0.0;
      var pending := vec.Keys;
      ghost var done: set<string> := {};
      while pending != {}
        invariant pending <= vec.Keys && done == vec.Keys - pending
        invariant sum == SetSum(done, Square(vec))
        decreases pending
      {
        var term :| term in pending;
        var value := vec[term];
        assert SetSum(done + {term}, Square(vec)) == SetSum(done, Square(vec)) + value * value by {
          SetSumAdd(done, Square(vec), term);
        }
        sum := sum + value * value;
        done := done + {term};
        pending := pending - {term};
      }
      assert done == vec.Keys;
      m := sqrt(sum);
    }

    /**
     * The guarded cosine similarity of two documents; in [0, 1] when the
     * weights are non-negative, as TF-IDF weights are.
     */
    method CosineSimilarity(doc1Index: int, doc2Index: int) returns (s: real)
      ensures s == Cosine(tfidfVectors, doc1Index, doc2Index, sqrt)
      ensures IsSqrt(sqrt) && AllNonNegative(tfidfVectors) ==> 0.0 <= s <= 1.0
    {
      if doc1Index < 0 || doc1Index >= |tfidfVectors| || doc2Index < 0 || doc2Index >= |tfidfVectors| {
        s := 0.0;
      } else if doc1Index == doc2Index {
        s := 1.0;
      } else {
        var vec1, vec2 := tfidfVectors[doc1Index], tfidfVectors[doc2Index];
        var dot := DotProduct(vec1, vec2);
        var mag1 := Magnitude(vec1);
        var mag2 := Magnitude(vec2);
        CosineOfDistinctIndices(tfidfVectors, doc1Index, doc2Index, sqrt, dot, mag1, mag2);
        if mag1 == 0.0 || mag2 == 0.0 {
          s := 0.0;
        } else {
          s := dot / (mag1 * mag2);
        }
      }
      if IsSqrt(sqrt) && AllNonNegative(tfidfVectors) {
        CosineInUnitRange(tfidfVectors, doc1Index, doc2Index, sqrt);
      }
    }

    /** Compares every pair i < j in nested-loop order and labels it with the two names. */
    method CompareAll() returns (results: seq<SimilarityResult>)
      ensures results == Comparisons(tfidfVectors, documentNames, sqrt)
    {
      results := [];
      var numDocs := |tfidfVectors|;
      for i := 0 to numDocs
        invariant results == CompareEach(tfidfVectors, documentNames, sqrt, PairsUpTo(i, numDocs))
      {
        ghost var done := PairsUpTo(i, numDocs);
        for j := i + 1 to numDocs
          invariant done == PairsUpTo(i, numDocs) + Row(i, numDocs)[..j - i - 1]
          invariant results == CompareEach(tfidfVectors, documentNames, sqrt, done)
        {
          var similarity := CosineSimilarity(i, j);
          var name1 := if i < |documentNames| then documentNames[i] else "Document" + DecimalString(i);
          var name2 := if j < |documentNames| then documentNames[j] else "Document" + DecimalString(j);
          var row := SimilarityResult(name1, name2, similarity);
          assert row == Compare(tfidfVectors, documentNames, sqrt, (i, j));
          CompareEachSnoc(tfidfVectors, documentNames, sqrt, done, (i, j));
          RowPrefixSnoc(i, j, numDocs);
          results := results + [row];
          done := done + [(i, j)];
        }
        assert Row(i, numDocs)[..numDocs - i - 1] == Row(i, numDocs);
      }
    }
  }
}
