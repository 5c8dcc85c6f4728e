/**
 * rankSegments and calculateCosineSimilarity, over real numbers.
 *
 * The source returns dot / (sqrt(normA) * sqrt(normB)). This model keeps the
 * three accumulators exactly and represents the cosine c by its signed square
 * c * |c| = dot * |dot| / (normA * normB): the same sign, the same order
 * between any two scores (SignedSquareStrictlyIncreasing), and no square root.
 */
module Similarity {
  import opened Wrappers
  import opened Domain

  /** The sum the loop accumulates: the first n terms of the dot product of a and b. */
  function DotSum(a: seq<real>, b: seq<real>, n: nat): real
    requires n <= |a| && n <= |b|
  {
    if n == 0 then 0.0 else DotSum(a, b, n - 1) + a[n - 1] * b[n - 1]
  }

  /**
   * The accumulator after n steps. Being non-recursive, it names the sum by
   * one term wherever the contracts below multiply accumulators.
   */
  function Dot(a: seq<real>, b: seq<real>, n: nat): real
    requires n <= |a| && n <= |b|
  {
    DotSum(a, b, n)
  }

  /** One step of the accumulator, as a fact the callers get without unfolding. */
  lemma DotStep(a: seq<real>, b: seq<real>, n: nat)
    requires 0 < n <= |a| && n <= |b|
    ensures Dot(a, b, n) == Dot(a, b, n - 1) + a[n - 1] * b[n - 1]
  {
  }

  // ---- facts about real arithmetic used below ----

  lemma MulPos(x: real, y: real)
    requires x > 0.0 && y > 0.0
    ensures x * y > 0.0
  {
  }

  lemma MulNonNeg(x: real, y: real)
    requires x >= 0.0 && y >= 0.0
    ensures x * y >= 0.0
  {
  }

  lemma SquareNonNeg(x: real)
    ensures x * x >= 0.0
  {
  }

  lemma SquarePos(x: real)
    requires x != 0.0
    ensures x * x > 0.0
  {
    if x < 0.0 {
      MulPos(-x, -x);
    }
  }

  /**
   * A positive term added to a non-negative one. Stated apart so that the
   * callers' goals stay linear in the products they add.
   */
  lemma AddPos(p: real, q: real)
    requires p >= 0.0 && q > 0.0
    ensures p + q > 0.0
  {
  }

  lemma SquareLess(x: real, y: real)
    requires 0.0 <= x < y
    ensures x * x < y * y
  {
    MulPos(y - x, y + x);
    assert y * y - x * x == (y - x) * (y + x);
  }

  lemma DivMul(a: real, p: real)
    requires p != 0.0
    ensures (a / p) * p == a
  {
  }

  lemma DivUnique(a: real, p: real, r: real)
    requires p > 0.0 && r * p == a
    ensures a / p == r
  {
  }

  lemma MulLeCancel(u: real, v: real, p: real)
    requires p > 0.0 && u * p <= v * p
    ensures u <= v
  {
    if u > v { MulPos(u - v, p); }
  }

  lemma AboveOne(c: real)
    ensures (c > 1.0 || c < -1.0) ==> c * c > 1.0
  {
    if c > 1.0 { MulPos(c - 1.0, c + 1.0); }
    if c < -1.0 { MulPos(-c - 1.0, 1.0 - c); }
  }

  lemma MulEqCancel(u: real, v: real, p: real)
    requires p > 0.0 && u * p == v * p
    ensures u == v
  {
    if u > v { MulPos(u - v, p); }
    if u < v { MulPos(v - u, p); }
  }

  // ---- the accumulators ----

  lemma {:induction false} NormNonNegative(a: seq<real>, n: nat)
    requires n <= |a|
    ensures Dot(a, a, n) >= 0.0
  {
    if n > 0 {
      NormNonNegative(a, n - 1);
      SquareNonNeg(a[n - 1]);
    }
  }

  /** The step of NormPositive that adds the non-zero component's square. */
  lemma LastSquarePositive(a: seq<real>, n: nat)
    requires 0 < n <= |a| && a[n - 1] != 0.0
    ensures Dot(a, a, n) > 0.0
  {
    NormNonNegative(a, n - 1);
    // The square is compared with 0 * 0, which keeps the strict bound linear.
    if a[n - 1] > 0.0 {
      SquareLess(0.0, a[n - 1]);
    } else {
      SquareLess(0.0, -a[n - 1]);
    }
    DotStep(a, a, n);
  }

  /** The step of NormPositive that adds a later component's square. */
  lemma LaterSquareKeeps(a: seq<real>, n: nat)
    requires 0 < n <= |a| && Dot(a, a, n - 1) > 0.0
    ensures Dot(a, a, n) > 0.0
  {
    SquareNonNeg(a[n - 1]);
    AddPos(a[n - 1] * a[n - 1], Dot(a, a, n - 1));
    DotStep(a, a, n);
  }

  /** A non-zero component makes the accumulated squared norm positive. */
  lemma {:induction false} NormPositive(a: seq<real>, n: nat, k: nat)
    requires k < n <= |a| && a[k] != 0.0
    ensures Dot(a, a, n) > 0.0
  {
    if k == n - 1 {
      LastSquarePositive(a, n);
    } else {
      NormPositive(a, n - 1, k);
      LaterSquareKeeps(a, n);
    }
  }

  lemma {:induction false} NormZero(a: seq<real>, n: nat)
    requires n <= |a| && forall i :: 0 <= i < n ==> a[i] == 0.0
    ensures Dot(a, a, n) == 0.0
  {
    if n > 0 { NormZero(a, n - 1); }
  }

  /** The accumulated squared norm is zero exactly when every component it sums is zero. */
  lemma ZeroNormIffZeroVector(a: seq<real>, n: nat)
    requires n <= |a|
    ensures Dot(a, a, n) == 0.0 <==> forall i :: 0 <= i < n ==> a[i] == 0.0
  {
    if forall i :: 0 <= i < n ==> a[i] == 0.0 {
      NormZero(a, n);
    } else {
      var k :| 0 <= k < n && a[k] != 0.0;
      NormPositive(a, n, k);
    }
  }

  /** The step of the inductive proof: 2dxy <= p y^2 + q x^2 whenever d^2 <= pq. */
  lemma CrossTerm(d: real, p: real, q: real, x: real, y: real)
    requires p >= 0.0 && q >= 0.0 && d * d <= p * q
    ensures 2.0 * d * x * y <= p * y * y + q * x * x
  {
    SquareNonNeg(x);
    SquareNonNeg(y);
    if p == 0.0 {
      if d != 0.0 { SquarePos(d); }
      MulNonNeg(q, x * x);
    } else {
      var e := p * y * y + q * x * x - 2.0 * d * x * y;
      var u := p * y - d * x;
      assert p * e == u * u + (p * q - d * d) * (x * x);
      SquareNonNeg(u);
      MulNonNeg(p * q - d * d, x * x);
      if e < 0.0 { MulPos(p, -e); }
    }
  }

  /** Cauchy-Schwarz for the accumulators: dot^2 <= normA * normB. */
  lemma {:induction false} CauchySchwarz(a: seq<real>, b: seq<real>, n: nat)
    requires n <= |a| && n <= |b|
    ensures Dot(a, b, n) * Dot(a, b, n) <= Dot(a, a, n) * Dot(b, b, n)
  {
    if n > 0 {
      CauchySchwarz(a, b, n - 1);
      CauchySchwarzExtend(a, b, n);
    } else {
      CauchySchwarzBase(Dot(a, b, n), Dot(a, a, n), Dot(b, b, n));
    }
  }

  /** The inequality for the first n - 1 terms carries over to the first n. */
  lemma CauchySchwarzExtend(a: seq<real>, b: seq<real>, n: nat)
    requires 0 < n <= |a| && n <= |b|
    requires Dot(a, b, n - 1) * Dot(a, b, n - 1) <= Dot(a, a, n - 1) * Dot(b, b, n - 1)
    ensures Dot(a, b, n) * Dot(a, b, n) <= Dot(a, a, n) * Dot(b, b, n)
  {
    NormNonNegative(a, n - 1);
    NormNonNegative(b, n - 1);
    CauchySchwarzNext(Dot(a, b, n - 1), Dot(a, a, n - 1), Dot(b, b, n - 1), a[n - 1], b[n - 1],
                      Dot(a, b, n), Dot(a, a, n), Dot(b, b, n));
  }




  lemma CauchySchwarzBase(d: real, p: real, q: real)
    requires d == 0.0 && p == 0.0 && q == 0.0
    ensures d * d <= p * q
  {
  }

  lemma CauchySchwarzNext(d: real, p: real, q: real, x: real, y: real, d': real, p': real, q': real)
    requires p >= 0.0 && q >= 0.0 && d * d <= p * q
    requires d' == d + x * y && p' == p + x * x && q' == q + y * y
    ensures d' * d' <= p' * q'
  {
    CauchySchwarzStep(d, p, q, x, y);
  }

  lemma CauchySchwarzStep(d: real, p: real, q: real, x: real, y: real)
    requires p >= 0.0 && q >= 0.0 && d * d <= p * q
    ensures (d + x * y) * (d + x * y) <= (p + x * x) * (q + y * y)
  {
    CrossTerm(d, p, q, x, y);
    assert (d + x * y) * (d + x * y) == d * d + 2.0 * d * x * y + (x * y) * (x * y);
    assert (p + x * x) * (q + y * y) == p * q + p * y * y + q * x * x + (x * y) * (x * y);
  }

  function Abs(x: real): real
  {
    if x >= 0.0 then x else -x
  }

  /** x * |x|: the order-preserving image the model keeps of a cosine. */
  function SignedSquare(x: real): real
  {
    x * Abs(x)
  }

  /** |x * |x|| is x * x. */
  lemma SignedSquareMagnitude(x: real)
    ensures -(x * x) <= SignedSquare(x) <= x * x
    ensures x >= 0.0 ==> SignedSquare(x) == x * x
  {
    if x >= 0.0 {
      assert Abs(x) == x;
    } else {
      assert Abs(x) == -x;
      assert x * (-x) == -(x * x);
    }
  }

  lemma SignedSquareStrictlyIncreasing(x: real, y: real)
    requires x < y
    ensures SignedSquare(x) < SignedSquare(y)
  {
    if 0.0 <= x {
      SquareLess(x, y);
    } else if y <= 0.0 {
      SquareLess(-y, -x);
      assert (-y) * (-y) == y * y && (-x) * (-x) == x * x;
    } else {
      MulPos(-x, -x);
      MulPos(y, y);
    }
  }

  lemma SignedSquareScale(c: real, s: real)
    requires s > 0.0
    ensures SignedSquare(c * s) == SignedSquare(c) * (s * s)
  {
    if c >= 0.0 { assert c * s >= 0.0; } else { assert c * s < 0.0; }
  }

  /** The guarded ratio that ends calculateCosineSimilarity: zero when either norm is zero. */
  function Ratio(dot: real, normA: real, normB: real): real
  {
    if normA == 0.0 || normB == 0.0 then 0.0 else SignedSquare(dot) / (normA * normB)
  }

  /** The score of a document vector against the query, over the first |query| components. */
  function Score(query: seq<real>, doc: seq<real>): real
    requires |query| <= |doc|
  {
    Ratio(Dot(query, doc, |query|), Dot(query, query, |query|), Dot(doc, doc, |query|))
  }

  lemma RatioBounds(dot: real, normA: real, normB: real)
    requires normA >= 0.0 && normB >= 0.0 && dot * dot <= normA * normB
    ensures -1.0 <= Ratio(dot, normA, normB) <= 1.0
  {
    if normA != 0.0 && normB != 0.0 {
      MulPos(normA, normB);
      DivMul(SignedSquare(dot), normA * normB);
      SignedSquareMagnitude(dot);
      var r := SignedSquare(dot) / (normA * normB);
      assert -(normA * normB) <= r * (normA * normB) <= normA * normB;
      MulLeCancel(r, 1.0, normA * normB);
      MulLeCancel(-1.0, r, normA * normB);
    }
  }

  /** Every score lies in [-1, 1]. */
  lemma ScoreBounds(query: seq<real>, doc: seq<real>)
    requires |query| <= |doc|
    ensures -1.0 <= Score(query, doc) <= 1.0
  {
    var n := |query|;
    NormNonNegative(query, n);
    NormNonNegative(doc, n);
    CauchySchwarz(query, doc, n);
    RatioBounds(Dot(query, doc, n), Dot(query, query, n), Dot(doc, doc, n));
  }

  /** The guard: a query or a document whose components are all zero scores exactly 0. */
  lemma ScoreZeroVector(query: seq<real>, doc: seq<real>)
    requires |query| <= |doc|
    requires (forall i :: 0 <= i < |query| ==> query[i] == 0.0) ||
             (forall i :: 0 <= i < |query| ==> doc[i] == 0.0)
    ensures Score(query, doc) == 0.0
  {
    ZeroNormIffZeroVector(query, |query|);
    ZeroNormIffZeroVector(doc, |query|);
  }

  lemma SelfRatio(p: real)
    requires p > 0.0
    ensures Ratio(p, p, p) == 1.0
  {
    MulPos(p, Abs(p));
    assert Abs(p) == p;
    assert p * Abs(p) == p * p;
    DivMul(SignedSquare(p), p * p);
    MulEqCancel(SignedSquare(p) / (p * p), 1.0, p * p);
  }

  /** A non-zero vector is as similar to itself as anything can be. */
  lemma ScoreSelf(v: seq<real>, k: nat)
    requires k < |v| && v[k] != 0.0
    ensures Score(v, v) == 1.0
  {
    NormPositive(v, |v|, k);
    SelfRatio(Dot(v, v, |v|));
  }

  lemma CosineRatio(dot: real, normA: real, normB: real, s: real)
    requires normA > 0.0 && normB > 0.0 && dot * dot <= normA * normB
    requires s > 0.0 && s * s == normA * normB
    ensures -1.0 <= dot / s <= 1.0
    ensures Ratio(dot, normA, normB) == SignedSquare(dot / s)
  {
    var c := dot / s;
    DivMul(dot, s);
    SignedSquareScale(c, s);
    MulPos(normA, normB);
    DivUnique(SignedSquare(dot), normA * normB, SignedSquare(c));
    assert (c * s) * (c * s) == (c * c) * (s * s);
    MulLeCancel(c * c, 1.0, normA * normB);
    AboveOne(c);
  }

  /**
   * The link to the source's cosine: for s the product of the two square
   * roots (s > 0, s * s == normA * normB), the cosine dot / s lies in
   * [-1, 1] and the model's score is its signed square.
   */
  lemma ScoreOfCosine(query: seq<real>, doc: seq<real>, s: real)
    requires |query| <= |doc|
    requires Dot(query, query, |query|) != 0.0 && Dot(doc, doc, |query|) != 0.0
    requires s > 0.0 && s * s == Dot(query, query, |query|) * Dot(doc, doc, |query|)
    ensures -1.0 <= Dot(query, doc, |query|) / s <= 1.0
    ensures Score(query, doc) == SignedSquare(Dot(query, doc, |query|) / s)
  {
    var n := |query|;
    NormNonNegative(query, n);
    NormNonNegative(doc, n);
    CauchySchwarz(query, doc, n);
    CosineRatio(Dot(query, doc, n), Dot(query, query, n), Dot(doc, doc, n), s);
  }

  /** The loop reads only the first |query| components of the document vector. */
  lemma {:induction false} DotPrefix(a: seq<real>, b: seq<real>, n: nat)
    requires n <= |a| && n <= |b|
    ensures Dot(a, b, n) == Dot(a, b[..n], n) && Dot(b, b, n) == Dot(b[..n], b[..n], n)
    decreases n
  {
    if n > 0 {
      DotPrefix(a, b, n - 1);
      assert b[..n][..n - 1] == b[..n - 1];
      DotPrefix(a, b[..n], n - 1);
    }
  }

  lemma ScoreIgnoresExtraComponents(query: seq<real>, doc: seq<real>)
    requires |query| <= |doc|
    ensures Score(query, doc) == Score(query, doc[..|query|])
  {
    DotPrefix(query, doc, |query|);
  }

  /** calculateCosineSimilarity: one pass accumulating dot, normA and normB, then the zero-norm guard. */
  method CosineSimilarity(vectorA: seq<real>, vectorB: seq<real>) returns (score: real)
    requires |vectorA| <= |vectorB|
    ensures score == Score(vectorA, vectorB)
    ensures -1.0 <= score <= 1.0
  {
    var dotProduct, normA, normB := 0.0, 0.0, 0.0;
    for i := 0 to |vectorA|
      invariant dotProduct == Dot(vectorA, vectorB, i)
      invariant normA == Dot(vectorA, vectorA, i)
      invariant normB == Dot(vectorB, vectorB, i)
    {
      dotProduct := dotProduct + vectorA[i] * vectorB[i];
      normA := normA + vectorA[i] * vectorA[i];
      normB := normB + vectorB[i] * vectorB[i];
    }
    score := Ratio(dotProduct, normA, normB);
    ScoreBounds(vectorA, vectorB);
  }

  // ---- rankSegments ----

  /** Every segment has a vector, and every vector is at least as long as the query's. */
  predicate Aligned(query: seq<real>, segments: seq<Segment>, docVecs: seq<seq<real>>)
  {
    |segments| <= |docVecs| && forall i :: 0 <= i < |segments| ==> |query| <= |docVecs[i]|
  }

  /** The map after the loop has put the first |segments| scores, each `put` overwriting an equal key. */
  function ScoreMap(query: seq<real>, segments: seq<Segment>, docVecs: seq<seq<real>>): map<Segment, real>
    requires Aligned(query, segments, docVecs)
  {
    if segments == [] then map[]
    else
      var n := |segments| - 1;
      ScoreMap(query, segments[..n], docVecs)[segments[n] := Score(query, docVecs[n])]
  }

  /** The key set is exactly the set of input segments, so the map has at most |segments| entries. */
  lemma {:induction false} ScoreMapKeys(query: seq<real>, segments: seq<Segment>, docVecs: seq<seq<real>>)
    requires Aligned(query, segments, docVecs)
    ensures forall s :: s in ScoreMap(query, segments, docVecs) <==> s in segments
    ensures |ScoreMap(query, segments, docVecs)| <= |segments|
  {
    if segments != [] {
      var n := |segments| - 1;
      ScoreMapKeys(query, segments[..n], docVecs);
      assert segments == segments[..n] + [segments[n]];
    }
  }

  /** The value kept for segment i is its own score when no later index holds an equal segment. */
  lemma {:induction false} ScoreMapLastWins(query: seq<real>, segments: seq<Segment>, docVecs: seq<seq<real>>, i: nat)
    requires Aligned(query, segments, docVecs)
    requires i < |segments|
    requires forall j :: i < j < |segments| ==> segments[j] != segments[i]
    ensures segments[i] in ScoreMap(query, segments, docVecs)
    ensures ScoreMap(query, segments, docVecs)[segments[i]] == Score(query, docVecs[i])
  {
    var n := |segments| - 1;
    if i < n {
      ScoreMapLastWins(query, segments[..n], docVecs, i);
    }
  }

  /** Every value in the map is a score in [-1, 1]. */
  lemma {:induction false} ScoreMapBounded(query: seq<real>, segments: seq<Segment>, docVecs: seq<seq<real>>)
    requires Aligned(query, segments, docVecs)
    ensures forall s :: s in ScoreMap(query, segments, docVecs) ==> -1.0 <= ScoreMap(query, segments, docVecs)[s] <= 1.0
  {
    if segments != [] {
      var n := |segments| - 1;
      ScoreMapBounded(query, segments[..n], docVecs);
      ScoreBounds(query, docVecs[n]);
    }
  }

  /** The loop of rankSegments; a missing or too short vector throws out of it. */
  method ScoreSegments(queryVec: seq<real>, segments: seq<Segment>, docVecs: seq<seq<real>>)
    returns (r: Result<map<Segment, real>, Failure>)
    ensures r.Ok? <==> Aligned(queryVec, segments, docVecs)
    ensures r.Ok? ==> r.value == ScoreMap(queryVec, segments, docVecs)
    ensures r.Err? ==> r.error == DimensionMismatch
  {
    var scoringMap := map[];
    for i := 0 to |segments|
      invariant Aligned(queryVec, segments[..i], docVecs)
      invariant scoringMap == ScoreMap(queryVec, segments[..i], docVecs)
    {
      if i >= |docVecs| || |docVecs[i]| < |queryVec| {
        return Err(DimensionMismatch);
      }
      var sim := CosineSimilarity(queryVec, docVecs[i]);
      assert segments[..i + 1][..i] == segments[..i];
      scoringMap := scoringMap[segments[i] := sim];
    }
    assert segments[..|segments|] == segments;
    return Ok(scoringMap);
  }

  /** rankSegments: embed the query, embed all segments in one batch, score each segment. */
  function Ranking(env: Environment, query: string, segments: seq<Segment>): Result<map<Segment, real>, Failure>
  {
    match env.embed(query)
    case None => Err(EmbeddingFailed)
    case Some(queryVec) =>
      match env.embedAll(segments)
      case None => Err(EmbeddingFailed)
      case Some(docVecs) =>
        if Aligned(queryVec, segments, docVecs) then Ok(ScoreMap(queryVec, segments, docVecs))
        else Err(DimensionMismatch)
  }

  method RankSegments(env: Environment, query: string, segments: seq<Segment>)
    returns (r: Result<map<Segment, real>, Failure>)
    ensures r == Ranking(env, query, segments)
  {
    match env.embed(query) {
      case None => return Err(EmbeddingFailed);
      case Some(queryVec) =>
        match env.embedAll(segments) {
          case None => return Err(EmbeddingFailed);
          case Some(docVecs) =>
            r := ScoreSegments(queryVec, segments, docVecs);
        }
    }
  }

  /** A successful ranking scores exactly the input segments, each within [-1, 1]. */
  lemma RankingProperties(env: Environment, query: string, segments: seq<Segment>)
    requires Ranking(env, query, segments).Ok?
    ensures var m := Ranking(env, query, segments).value;
            (forall s :: s in m <==> s in segments) && |m| <= |segments| &&
            (forall s :: s in m ==> -1.0 <= m[s] <= 1.0)
  {
    var queryVec, docVecs := env.embed(query).value, env.embedAll(segments).value;
    ScoreMapKeys(queryVec, segments, docVecs);
    ScoreMapBounded(queryVec, segments, docVecs);
  }
}
