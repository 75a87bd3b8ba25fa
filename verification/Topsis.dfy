/** Fixed-reference TOPSIS scores, in exact arithmetic, and the ranking by score. */
module Topsis {
  import opened Wrappers

  type Row = seq<real>

  /** A square root on non-negative numbers. */
  ghost predicate IsRoot(root: real -> real) {
    forall x: real :: x >= 0.0 ==> root(x) >= 0.0 && root(x) * root(x) == x
  }

  lemma Positive(x: real, y: real, r: real)
    requires x > 0.0 && y > 0.0 && r == x * y
    ensures r > 0.0
  {}

  lemma Negative(x: real, y: real, r: real)
    requires x < 0.0 && y < 0.0 && r == x * y
    ensures r > 0.0
  {
    var s := (-x) * (-y);
    assert s == r;
    Positive(-x, -y, s);
  }

  lemma Zero(x: real, y: real, r: real)
    requires x == 0.0 && r == x * y
    ensures r == 0.0
  {}

  lemma SquareSign(x: real, r: real)
    requires r == x * x
    ensures r >= 0.0
    ensures r == 0.0 <==> x == 0.0
  {
    if x > 0.0 {
      Positive(x, x, r);
    } else if x < 0.0 {
      Negative(x, x, r);
    } else {
      Zero(x, x, r);
    }
  }

  function Square(x: real): real {
    x * x
  }

  /** The comprehension stops at the last weight; a longer row is cut. */
  function Weighted(row: Row, weights: Row): (r: Row)
    requires |row| >= |weights|
  {
    seq(|weights|, j requires 0 <= j < |weights| => row[j] * weights[j])
  }

  function Zeros(n: nat): Row {
    seq(n, _ => 0.0)
  }

  function SquaredDistance(row: Row, target: Row): real
    requires |row| == |target|
  {
    if row == [] then 0.0 else Square(row[0] - target[0]) + SquaredDistance(row[1..], target[1..])
  }

  lemma {:induction false} SquaredDistanceIsZero(row: Row, target: Row)
    requires |row| == |target|
    ensures SquaredDistance(row, target) >= 0.0
    ensures SquaredDistance(row, target) == 0.0 <==> row == target
  {
    if row != [] {
      SameByHead(row, target);
      SquareSign(row[0] - target[0], Square(row[0] - target[0]));
      SquaredDistanceIsZero(row[1..], target[1..]);
    }
  }

  lemma SameByHead(a: Row, b: Row)
    requires |a| == |b| > 0
    ensures a == b <==> a[0] - b[0] == 0.0 && a[1..] == b[1..]
  {
    assert a == [a[0]] + a[1..] && b == [b[0]] + b[1..];
  }

  /** The distance of a weighted row to the anti-ideal, as a share of both distances; None is a division by zero. */
  function Share(toIdeal: real, toAnti: real): Option<real> {
    if toIdeal + toAnti == 0.0 then None else Some(toAnti / (toIdeal + toAnti))
  }

  /** None is an exception: a row too short, or a division by zero. */
  function Score(row: Row, weights: Row, root: real -> real): Option<real> {
    if |row| < |weights| then None
    else
      var weighted := Weighted(row, weights);
      Share(root(SquaredDistance(weighted, weights)), root(SquaredDistance(weighted, Zeros(|weights|))))
  }

  lemma RootIsZero(root: real -> real, x: real)
    requires IsRoot(root) && x >= 0.0
    ensures root(x) >= 0.0
    ensures root(x) == 0.0 <==> x == 0.0
  {
    SquareSign(root(x), x);
  }

  lemma ShareOfSum(p: real, q: real)
    requires p >= 0.0 && q >= 0.0 && p + q > 0.0
    ensures 0.0 <= q / (p + q) <= 1.0
    ensures q / (p + q) == 1.0 <==> p == 0.0
    ensures q / (p + q) == 0.0 <==> q == 0.0
  {
    var share := q / (p + q);
    assert share * (p + q) == q;
    Multiply(share, p + q);
    Multiply(1.0 - share, p + q);
    assert (1.0 - share) * (p + q) == p;
  }

  lemma Multiply(s: real, n: real)
    requires n > 0.0
    ensures s * n == 0.0 <==> s == 0.0
    ensures s * n >= 0.0 <==> s >= 0.0
  {}

  /**
   * A row has a score exactly when it is long enough and some weight is not zero; the score lies between the
   * anti-ideal and the ideal.
   */
  lemma ScoreExactly(row: Row, weights: Row, root: real -> real)
    requires IsRoot(root)
    ensures Score(row, weights, root).Some? <==> |row| >= |weights| && weights != Zeros(|weights|)
    ensures Score(row, weights, root).Some? ==>
              var score := Score(row, weights, root).value;
              && 0.0 <= score <= 1.0
              && (score == 1.0 <==> Weighted(row, weights) == weights)
              && (score == 0.0 <==> Weighted(row, weights) == Zeros(|weights|))
  {
    if |row| >= |weights| {
      var weighted, zeros := Weighted(row, weights), Zeros(|weights|);
      var ideal, anti := SquaredDistance(weighted, weights), SquaredDistance(weighted, zeros);
      SquaredDistanceIsZero(weighted, weights);
      SquaredDistanceIsZero(weighted, zeros);
      RootIsZero(root, ideal);
      RootIsZero(root, anti);
      if weights == zeros {
        assert weighted == zeros;
      }
      if root(ideal) + root(anti) > 0.0 {
        ShareOfSum(root(ideal), root(anti));
      }
    }
  }

  // ---------------------------------------------------------------- which number the score is

  function Sum(terms: seq<real>): real {
    if terms == [] then 0.0 else terms[0] + Sum(terms[1..])
  }

  /** For every weight, its square times the square of the entry's distance to one, and to zero. */
  function IdealTerms(row: Row, weights: Row): (terms: seq<real>)
    requires |row| >= |weights|
    ensures |terms| == |weights|
  {
    seq(|weights|, j requires 0 <= j < |weights| => Square(weights[j]) * Square(row[j] - 1.0))
  }

  function AntiTerms(row: Row, weights: Row): (terms: seq<real>)
    requires |row| >= |weights|
    ensures |terms| == |weights|
  {
    seq(|weights|, j requires 0 <= j < |weights| => Square(weights[j]) * Square(row[j]))
  }

  predicate IsGap(row: Row, target: Row, terms: seq<real>, j: nat)
    requires j < |row| == |target| == |terms|
  {
    terms[j] == Square(row[j] - target[j])
  }

  lemma {:induction false} DistanceIsSum(row: Row, target: Row, terms: seq<real>)
    requires |row| == |target| == |terms|
    requires forall j: nat :: j < |row| ==> IsGap(row, target, terms, j)
    ensures SquaredDistance(row, target) == Sum(terms)
  {
    if row != [] {
      assert IsGap(row, target, terms, 0);
      forall j: nat | j < |row| - 1 ensures IsGap(row[1..], target[1..], terms[1..], j) {
        assert IsGap(row, target, terms, j + 1);
      }
      DistanceIsSum(row[1..], target[1..], terms[1..]);
    }
  }

  lemma SquareOfProduct(x: real, w: real, y: real)
    requires y == x * w
    ensures Square(y) == Square(w) * Square(x)
  {
    assert y * y == (w * w) * (x * x);
  }

  lemma GapTerms(x: real, w: real)
    ensures Square(x * w - w) == Square(w) * Square(x - 1.0)
    ensures Square(x * w - 0.0) == Square(w) * Square(x)
  {
    assert x * w - w == (x - 1.0) * w;
    SquareOfProduct(x - 1.0, w, x * w - w);
    SquareOfProduct(x, w, x * w - 0.0);
  }

  lemma TermsAreGaps(row: Row, weights: Row, j: nat)
    requires |row| >= |weights| > j
    ensures IsGap(Weighted(row, weights), weights, IdealTerms(row, weights), j)
    ensures IsGap(Weighted(row, weights), Zeros(|weights|), AntiTerms(row, weights), j)
  {
    GapTerms(row[j], weights[j]);
  }

  lemma DistancesAreSums(row: Row, weights: Row)
    requires |row| >= |weights|
    ensures SquaredDistance(Weighted(row, weights), weights) == Sum(IdealTerms(row, weights))
    ensures SquaredDistance(Weighted(row, weights), Zeros(|weights|)) == Sum(AntiTerms(row, weights))
  {
    forall j: nat | j < |weights|
      ensures IsGap(Weighted(row, weights), weights, IdealTerms(row, weights), j)
      ensures IsGap(Weighted(row, weights), Zeros(|weights|), AntiTerms(row, weights), j)
    {
      TermsAreGaps(row, weights, j);
    }
    DistanceIsSum(Weighted(row, weights), weights, IdealTerms(row, weights));
    DistanceIsSum(Weighted(row, weights), Zeros(|weights|), AntiTerms(row, weights));
  }

  lemma CancelFactor(s: real, t: real, n: real)
    requires n > 0.0 && s * n == t * n
    ensures s == t
  {
    Multiply(s - t, n);
    assert (s - t) * n == 0.0;
  }

  lemma SharesMeet(p: real, q: real, s: real)
    requires p + q > 0.0 && s * (p + q) == q
    ensures s * p == (1.0 - s) * q
  {
    var n := p + q;
    assert (s * p) * n == (s * n) * p == q * p;
    assert (1.0 - s) * n == n - s * n == p;
    assert ((1.0 - s) * q) * n == ((1.0 - s) * n) * q == p * q;
    CancelFactor(s * p, (1.0 - s) * q, n);
  }

  lemma SquaredProduct(x: real, y: real, square: real)
    requires square == y * y
    ensures (x * y) * (x * y) == Square(x) * square
  {}

  /** Where the squared distances stand to each other as the squares of the score and of what it leaves. */
  predicate Divides(s: real, ideal: real, anti: real) {
    0.0 <= s <= 1.0 && Square(s) * ideal == Square(1.0 - s) * anti
  }

  lemma ShareDivides(root: real -> real, ideal: real, anti: real)
    requires IsRoot(root) && ideal >= 0.0 && anti >= 0.0 && Share(root(ideal), root(anti)).Some?
    ensures Divides(Share(root(ideal), root(anti)).value, ideal, anti)
  {
    var p, q := root(ideal), root(anti);
    RootIsZero(root, ideal);
    RootIsZero(root, anti);
    var s := q / (p + q);
    ShareOfSum(p, q);
    assert s * (p + q) == q;
    SharesMeet(p, q, s);
    SquaredProduct(s, p, ideal);
    SquaredProduct(1.0 - s, q, anti);
  }

  lemma OrderedProducts(s: real, t: real, n: real, low: real, high: real)
    requires 0.0 <= s < t && n >= 0.0 && low == Square(s) * n && high == Square(t) * n
    ensures n == 0.0 ==> low == high
    ensures n > 0.0 ==> low < high
  {
    var gap := Square(t) - Square(s);
    assert gap == (t - s) * (t + s);
    Positive(t - s, t + s, gap);
    if n > 0.0 {
      Positive(gap, n, gap * n);
      assert high - low == gap * n;
    }
  }

  /** Two pairs that rise together on one side and fall together on the other. */
  lemma Squeezed(ideal: real, anti: real, low: real, high: real)
    requires ideal >= 0.0 && anti >= 0.0
    requires if ideal > 0.0 then low < high else low == high
    requires if anti > 0.0 then high < low else low == high
    ensures ideal + anti == 0.0
  {}

  lemma NotBelow(s: real, t: real, ideal: real, anti: real)
    requires ideal >= 0.0 && anti >= 0.0 && ideal + anti > 0.0 && Divides(s, ideal, anti) && Divides(t, ideal, anti)
    ensures !(s < t)
  {
    if s < t {
      OrderedProducts(s, t, ideal, Square(s) * ideal, Square(t) * ideal);
      OrderedProducts(1.0 - t, 1.0 - s, anti, Square(1.0 - t) * anti, Square(1.0 - s) * anti);
      Squeezed(ideal, anti, Square(s) * ideal, Square(t) * ideal);
    }
  }

  lemma DivisionIsUnique(s: real, t: real, ideal: real, anti: real)
    requires ideal >= 0.0 && anti >= 0.0 && ideal + anti > 0.0 && Divides(s, ideal, anti) && Divides(t, ideal, anti)
    ensures s == t
  {
    NotBelow(s, t, ideal, anti);
    NotBelow(t, s, ideal, anti);
  }

  lemma ScoreIs(row: Row, weights: Row, root: real -> real, s: real)
    requires IsRoot(root) && Score(row, weights, root).Some?
    ensures |row| >= |weights|
    ensures Divides(s, Sum(IdealTerms(row, weights)), Sum(AntiTerms(row, weights))) <==>
            s == Score(row, weights, root).value
  {
    var ideal, anti := Sum(IdealTerms(row, weights)), Sum(AntiTerms(row, weights));
    DistancesAreSums(row, weights);
    SquaredDistanceIsZero(Weighted(row, weights), weights);
    SquaredDistanceIsZero(Weighted(row, weights), Zeros(|weights|));
    RootIsZero(root, ideal);
    RootIsZero(root, anti);
    ShareDivides(root, ideal, anti);
    if Divides(s, ideal, anti) {
      DivisionIsUnique(s, Score(row, weights, root).value, ideal, anti);
    }
  }

  /** The score is the one number of [0, 1] that divides the unit as the distances to the two ideals ask. */
  lemma ScoreDivides(row: Row, weights: Row, root: real -> real)
    requires IsRoot(root) && Score(row, weights, root).Some?
    ensures |row| >= |weights|
    ensures forall s :: Divides(s, Sum(IdealTerms(row, weights)), Sum(AntiTerms(row, weights))) <==>
                        s == Score(row, weights, root).value
  {
    forall s
      ensures |row| >= |weights|
      ensures Divides(s, Sum(IdealTerms(row, weights)), Sum(AntiTerms(row, weights))) <==>
              s == Score(row, weights, root).value
    {
      ScoreIs(row, weights, root, s);
    }
  }

  lemma Distribute(a: real, b: real, k: real)
    ensures (a + b) * k == a * k + b * k
  {}

  predicate IsScaled(factors: seq<real>, k: real, terms: seq<real>, j: nat)
    requires j < |factors| == |terms|
  {
    terms[j] == factors[j] * k
  }

  lemma {:induction false} SumScales(factors: seq<real>, k: real, terms: seq<real>)
    requires |factors| == |terms| && forall j: nat :: j < |terms| ==> IsScaled(factors, k, terms, j)
    ensures Sum(terms) == Sum(factors) * k
  {
    if terms != [] {
      assert IsScaled(factors, k, terms, 0);
      forall j: nat | j < |terms| - 1 ensures IsScaled(factors[1..], k, terms[1..], j) {
        assert IsScaled(factors, k, terms, j + 1);
      }
      SumScales(factors[1..], k, terms[1..]);
      Distribute(factors[0], Sum(factors[1..]), k);
    }
  }

  function Squares(weights: Row): (squares: seq<real>)
    ensures |squares| == |weights|
  {
    seq(|weights|, j requires 0 <= j < |weights| => Square(weights[j]))
  }

  /** The sum of terms that are each a square weight times the same number. */
  predicate IsMultiple(weights: Row, k: real, sum: real) {
    sum == Sum(Squares(weights)) * k
  }

  lemma LevelIdeal(row: Row, weights: Row, x: real, k: real)
    requires |row| >= |weights| && (forall j :: 0 <= j < |weights| ==> row[j] == x) && k == Square(x - 1.0)
    ensures IsMultiple(weights, k, Sum(IdealTerms(row, weights)))
  {
    forall j: nat | j < |weights| ensures IsScaled(Squares(weights), k, IdealTerms(row, weights), j) {
      LevelIdealTerm(row, weights, x, k, j);
    }
    SumScales(Squares(weights), k, IdealTerms(row, weights));
  }

  lemma LevelIdealTerm(row: Row, weights: Row, x: real, k: real, j: nat)
    requires |row| >= |weights| > j && row[j] == x && k == Square(x - 1.0)
    ensures IsScaled(Squares(weights), k, IdealTerms(row, weights), j)
  {}

  lemma LevelAnti(row: Row, weights: Row, x: real, k: real)
    requires |row| >= |weights| && (forall j :: 0 <= j < |weights| ==> row[j] == x) && k == Square(x)
    ensures IsMultiple(weights, k, Sum(AntiTerms(row, weights)))
  {
    forall j: nat | j < |weights| ensures IsScaled(Squares(weights), k, AntiTerms(row, weights), j) {
      LevelAntiTerm(row, weights, x, k, j);
    }
    SumScales(Squares(weights), k, AntiTerms(row, weights));
  }

  lemma LevelAntiTerm(row: Row, weights: Row, x: real, k: real, j: nat)
    requires |row| >= |weights| > j && row[j] == x && k == Square(x)
    ensures IsScaled(Squares(weights), k, AntiTerms(row, weights), j)
  {}

  lemma MultiplesDivide(weights: Row, x: real, ideal: real, anti: real)
    requires 0.0 <= x <= 1.0 && IsMultiple(weights, Square(x - 1.0), ideal) && IsMultiple(weights, Square(x), anti)
    ensures Divides(x, ideal, anti)
  {
    LevelDivides(x, Sum(Squares(weights)), Square(x - 1.0), Square(x), ideal, anti);
  }

  lemma LevelDivides(x: real, total: real, r: real, s: real, ideal: real, anti: real)
    requires 0.0 <= x <= 1.0 && r == Square(x - 1.0) && s == Square(x) && ideal == total * r && anti == total * s
    ensures Divides(x, ideal, anti)
  {
    assert Square(1.0 - x) == r;
    assert s * (total * r) == r * (total * s);
  }

  lemma LevelRowDivides(row: Row, weights: Row, x: real)
    requires |row| >= |weights| && (forall j :: 0 <= j < |weights| ==> row[j] == x) && 0.0 <= x <= 1.0
    ensures Divides(x, Sum(IdealTerms(row, weights)), Sum(AntiTerms(row, weights)))
  {
    LevelIdeal(row, weights, x, Square(x - 1.0));
    LevelAnti(row, weights, x, Square(x));
    MultiplesDivide(weights, x, Sum(IdealTerms(row, weights)), Sum(AntiTerms(row, weights)));
  }

  /** A row that is x in every weighted place, x between 0 and 1, scores x. */
  lemma LevelRowScores(row: Row, weights: Row, root: real -> real, x: real)
    requires IsRoot(root) && Score(row, weights, root).Some? && 0.0 <= x <= 1.0
    requires forall j :: 0 <= j < |weights| && j < |row| ==> row[j] == x
    ensures Score(row, weights, root).value == x
  {
    assert |row| >= |weights|;
    LevelRowDivides(row, weights, x);
    ScoreIs(row, weights, root, x);
  }

  type Scoring = Row -> Option<real>

  function FixedScore(weights: Row, root: real -> real): Scoring {
    row => Score(row, weights, root)
  }

  /** The scores of the first n rows, or None when one of them has no score. */
  function ScoresOf(rows: seq<Row>, n: nat, score: Scoring): Option<seq<real>>
    requires n <= |rows|
  {
    if n == 0 then Some([])
    else Append(ScoresOf(rows, n - 1, score), score(rows[n - 1]))
  }

  function Append(scores: Option<seq<real>>, score: Option<real>): Option<seq<real>> {
    if scores.None? || score.None? then None else Some(scores.value + [score.value])
  }

  function Scores(rows: seq<Row>, score: Scoring): Option<seq<real>> {
    ScoresOf(rows, |rows|, score)
  }

  lemma {:induction false} NoScoreSpreads(rows: seq<Row>, score: Scoring, i: nat, n: nat)
    requires i < n <= |rows| && score(rows[i]) == None
    ensures ScoresOf(rows, n, score) == None
  {
    if i < n - 1 {
      NoScoreSpreads(rows, score, i, n - 1);
    }
  }

  /** Scores in one loop over the weighted rows. */
  method TopsisFixed(alternatives: seq<Row>, weights: Row, root: real -> real) returns (result: Option<seq<real>>)
    ensures result == Scores(alternatives, FixedScore(weights, root))
  {
    ghost var score := FixedScore(weights, root);
    if i :| 0 <= i < |alternatives| && |alternatives[i]| < |weights| {
      NoScoreSpreads(alternatives, score, i, |alternatives|);
      return None;
    }
    var weighted := seq(|alternatives|, i requires 0 <= i < |alternatives| => Weighted(alternatives[i], weights));
    var ideal, anti := weights, Zeros(|weights|);
    var scores := [];
    var i := 0;
    while i < |weighted|
      invariant 0 <= i <= |weighted|
      invariant ScoresOf(alternatives, i, score) == Some(scores)
    {
      var row := weighted[i];
      var dIdeal := root(SquaredDistance(row, ideal));
      var dAnti := root(SquaredDistance(row, anti));
      assert score(alternatives[i]) == Share(dIdeal, dAnti);
      if dIdeal + dAnti == 0.0 {
        NoScoreSpreads(alternatives, score, i, |alternatives|);
        return None;
      }
      scores := scores + [dAnti / (dIdeal + dAnti)];
      i := i + 1;
    }
    return Some(scores);
  }

  lemma {:induction false} ScoresAreDefined(rows: seq<Row>, n: nat, score: Scoring)
    requires n <= |rows|
    ensures ScoresOf(rows, n, score).Some? <==> forall i :: 0 <= i < n ==> score(rows[i]).Some?
  {
    if n > 0 {
      ScoresAreDefined(rows, n - 1, score);
    }
  }

  /** All rows have scores exactly when each is long enough and, if there are any, some weight is not zero. */
  lemma ScoresDefined(rows: seq<Row>, weights: Row, root: real -> real)
    requires IsRoot(root)
    ensures Scores(rows, FixedScore(weights, root)).Some? <==>
            rows == [] || (weights != Zeros(|weights|) && forall i :: 0 <= i < |rows| ==> |rows[i]| >= |weights|)
  {
    var score := FixedScore(weights, root);
    ScoresAreDefined(rows, |rows|, score);
    forall i | 0 <= i < |rows|
      ensures score(rows[i]).Some? <==> |rows[i]| >= |weights| && weights != Zeros(|weights|)
    {
      ScoreExactly(rows[i], weights, root);
    }
    if rows != [] {
      assert score(rows[0]).Some? <==> |rows[0]| >= |weights| && weights != Zeros(|weights|);
    }
  }

  lemma {:induction false} SameRowsSameScores(base: seq<Row>, added: seq<Row>, n: nat, score: Scoring)
    requires n <= |base|
    ensures ScoresOf(base + added, n, score) == ScoresOf(base, n, score)
  {
    if n > 0 {
      SameRowsSameScores(base, added, n - 1, score);
    }
  }

  lemma {:induction false} ScoresGrow(rows: seq<Row>, m: nat, n: nat, score: Scoring)
    requires m <= n <= |rows| && ScoresOf(rows, n, score).Some?
    ensures ScoresOf(rows, m, score).Some?
    ensures |ScoresOf(rows, m, score).value| == m
    ensures ScoresOf(rows, m, score).value <= ScoresOf(rows, n, score).value
    decreases n
  {
    if m < n {
      ScoresGrow(rows, m, n - 1, score);
    } else if n > 0 {
      ScoresGrow(rows, n - 1, n - 1, score);
    }
  }

  // ---------------------------------------------------------------- the ranking

  /** Index i goes before index j: a higher score, or the same score and the earlier place. */
  predicate Ahead(scores: seq<real>, i: nat, j: nat)
    requires i < |scores| && j < |scores|
  {
    scores[i] > scores[j] || (scores[i] == scores[j] && i < j)
  }

  predicate Indices(order: seq<nat>, n: nat) {
    forall k :: 0 <= k < |order| ==> order[k] < n
  }

  predicate Ordered(scores: seq<real>, order: seq<nat>)
    requires Indices(order, |scores|)
  {
    forall p, q :: 0 <= p < q < |order| ==> Ahead(scores, order[p], order[q])
  }

  /** A stable sort of all indices by falling score. */
  predicate IsRanking(scores: seq<real>, order: seq<nat>) {
    && Indices(order, |scores|)
    && Ordered(scores, order)
    && forall i :: 0 <= i < |scores| ==> i in order
  }

  /** The new index goes behind every index with at least its score. */
  function Placed(scores: seq<real>, order: seq<nat>, i: nat): (r: seq<nat>)
    requires i < |scores| && Indices(order, |scores|)
    ensures Indices(r, |scores|)
  {
    if order == [] then [i]
    else if scores[order[0]] >= scores[i] then [order[0]] + Placed(scores, order[1..], i)
    else [i] + order
  }

  function Ranking(scores: seq<real>): (r: seq<nat>)
    ensures Indices(r, |scores|)
  {
    if scores == [] then []
    else Placed(scores, Ranking(scores[..|scores| - 1]), |scores| - 1)
  }

  lemma OrderedBehind(scores: seq<real>, first: nat, rest: seq<nat>)
    requires first < |scores| && Indices(rest, |scores|) && Ordered(scores, rest)
    requires forall k :: k in rest ==> Ahead(scores, first, k)
    ensures Indices([first] + rest, |scores|) && Ordered(scores, [first] + rest)
  {
    var all := [first] + rest;
    forall p, q | 0 <= p < q < |all| ensures Ahead(scores, all[p], all[q]) {
      assert all[q] == rest[q - 1] && rest[q - 1] in rest;
      if p > 0 {
        assert all[p] == rest[p - 1];
      }
    }
  }

  lemma {:induction false} PlacedMembers(scores: seq<real>, order: seq<nat>, i: nat)
    requires i < |scores| && Indices(order, |scores|)
    ensures forall k :: k in Placed(scores, order, i) <==> k == i || k in order
  {
    if order != [] {
      assert order == [order[0]] + order[1..];
      PlacedMembers(scores, order[1..], i);
    }
  }

  lemma {:induction false} PlacedKeepsOrder(scores: seq<real>, order: seq<nat>, i: nat)
    requires i < |scores| && Indices(order, i) && Ordered(scores, order)
    ensures Ordered(scores, Placed(scores, order, i))
  {
    if order != [] {
      TailMembers(scores, order);
      FirstIsAhead(scores, order);
      if scores[order[0]] >= scores[i] {
        PlacedKeepsOrder(scores, order[1..], i);
        PlacedMembers(scores, order[1..], i);
        OrderedBehind(scores, order[0], Placed(scores, order[1..], i));
      } else {
        OrderedBehind(scores, i, order);
      }
    } else {
      OrderedBehind(scores, i, []);
    }
  }

  lemma FirstIsAhead(scores: seq<real>, order: seq<nat>)
    requires order != [] && Indices(order, |scores|) && Ordered(scores, order)
    ensures forall k :: k in order && k != order[0] ==> Ahead(scores, order[0], k)
  {
    forall k | k in order && k != order[0] ensures Ahead(scores, order[0], k) {
      FirstLeads(scores, order, k);
    }
  }

  lemma {:induction false} RankingSorts(scores: seq<real>)
    ensures IsRanking(scores, Ranking(scores))
  {
    if scores != [] {
      var n := |scores| - 1;
      RankingSorts(scores[..n]);
      var order := Ranking(scores[..n]);
      assert Ordered(scores, order) by {
        forall p, q | 0 <= p < q < |order| ensures Ahead(scores, order[p], order[q]) {
          assert Ahead(scores[..n], order[p], order[q]);
        }
      }
      PlacedKeepsOrder(scores, order, n);
      PlacedMembers(scores, order, n);
    }
  }

  /** Two ordered lists of the same indices are the same list. */
  lemma {:induction false} OrderIsUnique(scores: seq<real>, s: seq<nat>, t: seq<nat>)
    requires Indices(s, |scores|) && Indices(t, |scores|) && Ordered(scores, s) && Ordered(scores, t)
    requires forall k :: k in s <==> k in t
    ensures s == t
  {
    SomeMember(t);
    if s != [] {
      assert s[0] in s;
      assert t[0] in t;
      FirstIsSame(scores, s, t);
      TailMembers(scores, s);
      TailMembers(scores, t);
      OrderIsUnique(scores, s[1..], t[1..]);
      assert s == [s[0]] + s[1..] && t == [t[0]] + t[1..];
    }
  }

  lemma SomeMember(s: seq<nat>)
    ensures s == [] || exists k :: k in s
  {
    if s != [] {
      assert s[0] in s;
    }
  }

  lemma FirstIsSame(scores: seq<real>, s: seq<nat>, t: seq<nat>)
    requires Indices(s, |scores|) && Indices(t, |scores|) && Ordered(scores, s) && Ordered(scores, t)
    requires s != [] && t != [] && s[0] in t && t[0] in s
    ensures s[0] == t[0]
  {
    FirstLeads(scores, s, t[0]);
    FirstLeads(scores, t, s[0]);
  }

  lemma FirstLeads(scores: seq<real>, s: seq<nat>, k: nat)
    requires Indices(s, |scores|) && Ordered(scores, s) && k in s
    ensures k == s[0] || Ahead(scores, s[0], k)
  {
    var q :| 0 <= q < |s| && s[q] == k;
  }

  lemma TailMembers(scores: seq<real>, s: seq<nat>)
    requires s != [] && Indices(s, |scores|) && Ordered(scores, s)
    ensures Indices(s[1..], |scores|) && Ordered(scores, s[1..])
    ensures forall k :: k in s[1..] <==> k in s && k != s[0]
  {
    assert forall k :: 0 <= k < |s[1..]| ==> s[1..][k] == s[k + 1];
    assert forall k :: 0 < k < |s| ==> s[k] in s[1..] by {
      forall k | 0 < k < |s| ensures s[k] in s[1..] {
        assert s[1..][k - 1] == s[k];
      }
    }
    assert forall k :: 0 < k < |s| ==> Ahead(scores, s[0], s[k]);
  }

  /** There is exactly one stable sort, and `Ranking` is it. */
  lemma RankingIsTheStableSort(scores: seq<real>, order: seq<nat>)
    ensures order == Ranking(scores) <==> IsRanking(scores, order)
  {
    RankingSorts(scores);
    if IsRanking(scores, order) {
      OrderIsUnique(scores, order, Ranking(scores));
    }
  }

  /** The indices below n, in the order given. */
  function Restricted(order: seq<nat>, n: nat): seq<nat> {
    if order == [] then []
    else (if order[0] < n then [order[0]] else []) + Restricted(order[1..], n)
  }

  lemma {:induction false} NewIndexIsDropped(scores: seq<real>, order: seq<nat>, i: nat, n: nat)
    requires n <= i < |scores| && Indices(order, |scores|)
    ensures Restricted(Placed(scores, order, i), n) == Restricted(order, n)
  {
    if order != [] {
      if scores[order[0]] >= scores[i] {
        NewIndexIsDropped(scores, order[1..], i, n);
        assert Placed(scores, order, i)[1..] == Placed(scores, order[1..], i);
      } else {
        assert Placed(scores, order, i)[1..] == order;
      }
    }
  }

  lemma {:induction false} AllKept(order: seq<nat>, n: nat)
    requires Indices(order, n)
    ensures Restricted(order, n) == order
  {
    if order != [] {
      AllKept(order[1..], n);
    }
  }

  /** The ranking of an extended list, cut to the first indices, is the ranking of the shorter list. */
  lemma {:induction false} RankingOfPrefix(scores: seq<real>, n: nat)
    requires n <= |scores|
    ensures Restricted(Ranking(scores), n) == Ranking(scores[..n])
    decreases |scores|
  {
    if n == |scores| {
      assert scores[..n] == scores;
      AllKept(Ranking(scores), n);
    } else {
      var m := |scores| - 1;
      RankingOfPrefix(scores[..m], n);
      assert scores[..m][..n] == scores[..n];
      NewIndexIsDropped(scores, Ranking(scores[..m]), m, n);
    }
  }

  lemma SortOfPrefix(scores: seq<real>, n: nat, order: seq<nat>, augmented: seq<nat>)
    requires n <= |scores| && IsRanking(scores[..n], order) && IsRanking(scores, augmented)
    ensures Restricted(augmented, n) == order
  {
    RankingIsTheStableSort(scores[..n], order);
    RankingIsTheStableSort(scores, augmented);
    RankingOfPrefix(scores, n);
  }

  /**
   * A scoring that looks at one row at a time is rank invariant: whatever is appended, the original rows keep
   * their order, ties included.
   */
  lemma RowwiseScoresKeepOrder(base: seq<Row>, added: seq<Row>, score: Scoring, order: seq<nat>, augmented: seq<nat>)
    requires Scores(base + added, score).Some?
    requires IsRanking(Scores(base + added, score).value, augmented)
    ensures Scores(base, score).Some?
    ensures IsRanking(Scores(base, score).value, order) <==> order == Restricted(augmented, |base|)
  {
    SameRowsSameScores(base, added, |base|, score);
    ScoresGrow(base + added, |base|, |base + added|, score);
    var scores, all := Scores(base, score).value, Scores(base + added, score).value;
    assert all[..|base|] == scores;
    RankingSorts(scores);
    SortOfPrefix(all, |base|, Ranking(scores), augmented);
    RankingIsTheStableSort(scores, order);
  }

  /** Rank invariance of fixed-reference TOPSIS: the base ranking is the augmented one without the added alternatives. */
  lemma RankInvariance(base: seq<Row>, added: seq<Row>, weights: Row, root: real -> real)
    requires IsRoot(root) && weights != Zeros(|weights|)
    requires forall i :: 0 <= i < |base + added| ==> |(base + added)[i]| >= |weights|
    ensures var score := FixedScore(weights, root);
            && Scores(base, score).Some? && Scores(base + added, score).Some?
            && Restricted(Ranking(Scores(base + added, score).value), |base|) == Ranking(Scores(base, score).value)
  {
    var score := FixedScore(weights, root);
    ScoresDefined(base + added, weights, root);
    var augmented := Ranking(Scores(base + added, score).value);
    RankingSorts(Scores(base + added, score).value);
    RowwiseScoresKeepOrder(base, added, score, Restricted(augmented, |base|), augmented);
    RankingIsTheStableSort(Scores(base, score).value, Restricted(augmented, |base|));
  }

  /** One alternative and a single zero weight: a division by zero, not a score. */
  lemma ZeroWeightHasNoScore(root: real -> real)
    requires IsRoot(root)
    ensures Score([1.0], [0.0], root) == None
  {
    assert [0.0] == Zeros(1);
    ScoreExactly([1.0], [0.0], root);
  }
}
