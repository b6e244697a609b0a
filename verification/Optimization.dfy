/**
 Optimization scoring over ideal reals: the baseline ratio, the three
 aggregations, and the scoring loop. The geometric mean is the non-negative
 number whose n-th power is the product of the scores.
 */
module Optimization {
  import opened Common

  datatype Direction = Maximize | Minimize
  datatype ScoreMode = BaselineRatio | CheckerScore
  datatype Aggregation = Mean | Minimum | GeometricMean

  /** A score, or a judge failure that ends the whole evaluation. */
  datatype Scored = Score(value: real) | Failure

  function Clamp(x: real): real {
    var low := if x < 1.0 then x else 1.0;
    if low < 0.0 then 0.0 else low
  }

  function Ratio(candidate: real, baseline: real, direction: Direction): Scored {
    if candidate < 0.0 || baseline < 0.0 then Failure
    else if direction.Maximize? then
      if baseline == 0.0 then Score(if candidate >= baseline then 1.0 else 0.0)
      else Score(Clamp(candidate / baseline))
    else if candidate == 0.0 then Score(1.0)
    else if baseline == 0.0 then Score(if candidate <= baseline then 1.0 else 0.0)
    else Score(Clamp(baseline / candidate))
  }

  predicate AtLeastAsGood(better: real, than: real, direction: Direction) {
    if direction.Maximize? then better >= than else better <= than
  }

  lemma QuotientGrows(a: real, b: real, c: real)
    requires a <= b && c > 0.0
    ensures a / c <= b / c
  {
  }

  lemma QuotientShrinks(a: real, b: real, c: real)
    requires 0.0 < a <= b && c >= 0.0
    ensures c / b <= c / a
  {
    var x, y := c / b, c / a;
    assert x * b == c && y * a == c;
    assert y * a <= y * b;
    assert (y - x) * b >= 0.0;
  }

  /** The ratio is a score in [0, 1], and a better objective never scores less. */
  lemma RatioMonotone(candidate: real, better: real, baseline: real, direction: Direction)
    requires candidate >= 0.0 && better >= 0.0 && baseline >= 0.0 && AtLeastAsGood(better, candidate, direction)
    ensures Ratio(candidate, baseline, direction).Score? && Ratio(better, baseline, direction).Score?
    ensures 0.0 <= Ratio(candidate, baseline, direction).value <= Ratio(better, baseline, direction).value <= 1.0
  {
    if baseline > 0.0 && direction.Maximize? {
      QuotientGrows(candidate, better, baseline);
    } else if baseline > 0.0 && better > 0.0 {
      QuotientShrinks(better, candidate, baseline);
    }
  }

  // ---- sums, products, powers ----

  /** How much of the baseline the candidate reaches: scaled back, the score is the smaller of the two objectives. */
  predicate IsShare(score: real, candidate: real, baseline: real, direction: Direction) {
    var smaller := if candidate <= baseline then candidate else baseline;
    && candidate >= 0.0 && baseline >= 0.0
    && match direction
       case Maximize => if baseline > 0.0 then score * baseline == smaller else score == 1.0
       case Minimize => if candidate > 0.0 then score * candidate == smaller else score == 1.0
  }

  lemma ScaledBack(value: real, score: real, scale: real)
    requires scale > 0.0
    ensures score * scale == value * scale <==> score == value
    ensures value * scale == scale <==> value == 1.0
  {
    assert (score - value) * scale == score * scale - value * scale;
    assert (value - 1.0) * scale == value * scale - scale;
  }

  lemma CappedQuotient(a: real, b: real)
    requires a >= 0.0 && b > 0.0
    ensures Clamp(a / b) * b == if a <= b then a else b
  {
    assert (a / b) * b == a;
    if a <= b {
      QuotientGrows(a, b, b);
    } else {
      QuotientGrows(b, a, b);
    }
    QuotientGrows(0.0, a, b);
  }

  lemma ShareIs(a: real, b: real, score: real)
    requires a >= 0.0 && b > 0.0
    ensures Clamp(a / b) == score <==> score * b == (if a <= b then a else b)
    ensures Clamp(a / b) == 1.0 <==> a >= b
  {
    CappedQuotient(a, b);
    hide Clamp;
    var share := Clamp(a / b);
    ScaledBack(share, score, b);
    ScaledBack(1.0, share, b);
    assert 1.0 * b == b;
  }

  /** The ratio is that share, refused exactly when an objective is negative, and full exactly for at least the baseline. */
  lemma RatioIsTheShare(candidate: real, baseline: real, direction: Direction, score: real)
    ensures Ratio(candidate, baseline, direction) == Score(score) <==> IsShare(score, candidate, baseline, direction)
    ensures Ratio(candidate, baseline, direction) == Failure <==> candidate < 0.0 || baseline < 0.0
    ensures candidate >= 0.0 && baseline >= 0.0 ==>
      (Ratio(candidate, baseline, direction) == Score(1.0) <==> AtLeastAsGood(candidate, baseline, direction))
  {
    hide Clamp;
    if candidate >= 0.0 && baseline >= 0.0 {
      if direction.Maximize? && baseline > 0.0 {
        ShareIs(candidate, baseline, score);
      } else if direction.Minimize? && candidate > 0.0 {
        ShareIs(baseline, candidate, score);
        ShareIs(0.0, candidate, 0.0);
      }
    }
  }

  function Sum(xs: seq<real>): real {
    if xs == [] then 0.0 else Sum(xs[..|xs| - 1]) + xs[|xs| - 1]
  }

  function Product(xs: seq<real>): real {
    if xs == [] then 1.0 else Product(xs[..|xs| - 1]) * xs[|xs| - 1]
  }

  function Least(xs: seq<real>): (m: real)
    requires xs != []
    ensures m in xs && forall i :: 0 <= i < |xs| ==> m <= xs[i]
  {
    var last := xs[|xs| - 1];
    if |xs| == 1 then last
    else
      var m := Least(xs[..|xs| - 1]);
      assert m in xs[..|xs| - 1];
      if m < last then m else last
  }

  function Power(x: real, n: nat): real {
    if n == 0 then 1.0 else Power(x, n - 1) * x
  }

  predicate NonNegative(xs: seq<real>) {
    forall i :: 0 <= i < |xs| ==> xs[i] >= 0.0
  }

  lemma ProductsGrow(a: real, b: real, c: real, d: real)
    requires 0.0 <= a <= b && 0.0 <= c <= d
    ensures 0.0 <= a * c <= b * d
  {
    assert a * c <= b * c;
    assert b * c <= b * d;
  }

  lemma {:induction false} PowerMonotone(x: real, y: real, n: nat)
    requires 0.0 <= x <= y
    ensures 0.0 <= Power(x, n) <= Power(y, n)
  {
    if n > 0 {
      PowerMonotone(x, y, n - 1);
      ProductsGrow(Power(x, n - 1), Power(y, n - 1), x, y);
    }
  }

  lemma {:induction false} PowerPositive(x: real, n: nat)
    requires x > 0.0
    ensures Power(x, n) > 0.0
  {
    if n > 0 {
      PowerPositive(x, n - 1);
    }
  }

  lemma PowerStrict(x: real, y: real, n: nat)
    requires 0.0 <= x < y && n > 0
    ensures Power(x, n) < Power(y, n)
  {
    PowerMonotone(x, y, n - 1);
    PowerPositive(y, n - 1);
    var p, q := Power(x, n - 1), Power(y, n - 1);
    assert p * x <= q * x;
    assert q * x < q * y;
  }

  /** Roots compare as their powers do. */
  lemma RootsCompare(x: real, y: real, n: nat)
    requires 0.0 <= x && 0.0 <= y && n > 0 && Power(x, n) <= Power(y, n)
    ensures x <= y
  {
    if y < x {
      PowerStrict(y, x, n);
    }
  }

  lemma {:induction false} ProductMonotone(xs: seq<real>, ys: seq<real>)
    requires |xs| == |ys| && NonNegative(xs) && forall i :: 0 <= i < |xs| ==> xs[i] <= ys[i]
    ensures 0.0 <= Product(xs) <= Product(ys)
  {
    if xs != [] {
      var n := |xs| - 1;
      ProductMonotone(xs[..n], ys[..n]);
      ProductsGrow(Product(xs[..n]), Product(ys[..n]), xs[n], ys[n]);
    }
  }

  lemma {:induction false} SumMonotone(xs: seq<real>, ys: seq<real>)
    requires |xs| == |ys| && forall i :: 0 <= i < |xs| ==> xs[i] <= ys[i]
    ensures Sum(xs) <= Sum(ys)
  {
    if xs != [] {
      SumMonotone(xs[..|xs| - 1], ys[..|xs| - 1]);
    }
  }

  lemma {:induction false} SumNonNegative(xs: seq<real>)
    requires NonNegative(xs)
    ensures Sum(xs) >= 0.0
  {
    if xs != [] {
      SumNonNegative(xs[..|xs| - 1]);
    }
  }

  // ---- the aggregate ----

  /** What `_aggregate` returns, up to rounding. */
  ghost predicate IsAggregate(scores: seq<real>, aggregation: Aggregation, v: real) {
    if scores == [] then v == 0.0
    else match aggregation
      case Minimum => v == Least(scores)
      case GeometricMean =>
        if exists i :: 0 <= i < |scores| && scores[i] <= 0.0 then v == 0.0
        else v >= 0.0 && Power(v, |scores|) == Product(scores)
      case Mean => v * |scores| as real == Sum(scores)
  }

  predicate UnitScores(scores: seq<real>) {
    forall i :: 0 <= i < |scores| ==> 0.0 <= scores[i] <= 1.0
  }

  // ---- an aggregate is made of its parts ----

  lemma {:induction false} SumOfParts(xs: seq<real>, ys: seq<real>)
    ensures Sum(xs + ys) == Sum(xs) + Sum(ys)
  {
    if ys == [] {
      assert xs + ys == xs;
    } else {
      assert (xs + ys)[..|xs + ys| - 1] == xs + ys[..|ys| - 1];
      SumOfParts(xs, ys[..|ys| - 1]);
    }
  }

  lemma {:induction false} ProductOfParts(xs: seq<real>, ys: seq<real>)
    ensures Product(xs + ys) == Product(xs) * Product(ys)
  {
    if ys == [] {
      assert xs + ys == xs;
    } else {
      var front := ys[..|ys| - 1];
      assert (xs + ys)[..|xs + ys| - 1] == xs + front;
      ProductOfParts(xs, front);
      assert (Product(xs) * Product(front)) * ys[|ys| - 1] == Product(xs) * (Product(front) * ys[|ys| - 1]);
    }
  }

  lemma AggregateOfNone(aggregation: Aggregation, v: real)
    ensures IsAggregate([], aggregation, v) <==> v == 0.0
  {
  }

  /** One score is its own aggregate, in every mode. */
  lemma AggregateOfOne(x: real, aggregation: Aggregation, v: real)
    requires x >= 0.0
    ensures IsAggregate([x], aggregation, v) <==> v == x
  {
    assert [x][..0] == [];
    assert Sum([x]) == x && Product([x]) == x && Power(v, 1) == v;
  }

  /** The aggregate of two lists together, from those of each: together with single scores this fixes every mode. */
  lemma AggregateOfParts(xs: seq<real>, ys: seq<real>, aggregation: Aggregation, v: real, w: real, u: real)
    requires xs != [] && ys != [] && UnitScores(xs) && UnitScores(ys)
    requires IsAggregate(xs, aggregation, v) && IsAggregate(ys, aggregation, w) && IsAggregate(xs + ys, aggregation, u)
    ensures aggregation == Minimum ==> u == if v <= w then v else w
    ensures aggregation == Mean ==> u * (|xs| + |ys|) as real == v * |xs| as real + w * |ys| as real
    ensures aggregation == GeometricMean ==> Power(u, |xs| + |ys|) == Power(v, |xs|) * Power(w, |ys|)
  {
    hide Sum, Product, Power, Least;
    match aggregation
    case Mean => SumOfParts(xs, ys);
    case Minimum => LeastOfParts(xs, ys);
    case GeometricMean => GeometricOfParts(xs, ys, v, w, u);
  }

  lemma LeastOfParts(xs: seq<real>, ys: seq<real>)
    requires xs != [] && ys != []
    ensures Least(xs + ys) == if Least(xs) <= Least(ys) then Least(xs) else Least(ys)
  {
    var i :| 0 <= i < |xs| && xs[i] == Least(xs);
    var j :| 0 <= j < |ys| && ys[j] == Least(ys);
    var k :| 0 <= k < |xs + ys| && (xs + ys)[k] == Least(xs + ys);
    assert (xs + ys)[i] == xs[i] && (xs + ys)[|xs| + j] == ys[j];
  }

  lemma GeometricOfParts(xs: seq<real>, ys: seq<real>, v: real, w: real, u: real)
    requires xs != [] && ys != [] && UnitScores(xs) && UnitScores(ys)
    requires IsAggregate(xs, GeometricMean, v) && IsAggregate(ys, GeometricMean, w) && IsAggregate(xs + ys, GeometricMean, u)
    ensures Power(u, |xs| + |ys|) == Power(v, |xs|) * Power(w, |ys|)
  {
    hide Power, Product, IsAggregate;
    assert UnitScores(xs + ys);
    ProductOfParts(xs, ys);
    GeometricPower(xs, v);
    GeometricPower(ys, w);
    GeometricPower(xs + ys, u);
  }

  lemma GeometricPower(xs: seq<real>, v: real)
    requires xs != [] && UnitScores(xs) && IsAggregate(xs, GeometricMean, v)
    ensures Power(v, |xs|) == Product(xs)
  {
    if k :| 0 <= k < |xs| && xs[k] <= 0.0 {
      ZeroProduct(xs, k);
    }
  }

  lemma {:induction false} ZeroProduct(xs: seq<real>, k: nat)
    requires k < |xs| && xs[k] == 0.0
    ensures Product(xs) == 0.0
    decreases |xs|
  {
    if k < |xs| - 1 {
      ZeroProduct(xs[..|xs| - 1], k);
    }
  }

  // ---- minimum <= geometric mean <= mean ----

  lemma {:induction false} LeastBelowProduct(xs: seq<real>, m: real)
    requires m >= 0.0 && forall i :: 0 <= i < |xs| ==> m <= xs[i]
    ensures 0.0 <= Power(m, |xs|) <= Product(xs)
  {
    if xs != [] {
      var n := |xs| - 1;
      LeastBelowProduct(xs[..n], m);
      ProductsGrow(Power(m, n), Product(xs[..n]), m, xs[n]);
    }
  }

  lemma Square(a: real, b: real, k: real, u: real, w: real)
    requires u == (k + 1.0) * b - k * a && w == (k + 2.0) * b - (k + 1.0) * a
    ensures b * u - a * w == (k + 1.0) * ((b - a) * (b - a))
  {
    var bb, ab, aa := b * b, a * b, a * a;
    assert b * u == (k + 1.0) * bb - k * ab;
    assert a * w == (k + 2.0) * ab - (k + 1.0) * aa;
    assert (b - a) * (b - a) == bb - 2.0 * ab + aa;
  }

  lemma NonNegativeFactor(x: real, y: real)
    requires y > 0.0 && x * y >= 0.0
    ensures x >= 0.0
  {
  }

  lemma NonNegativeProduct(x: real, y: real)
    requires x >= 0.0 && y >= 0.0
    ensures x * y >= 0.0
  {
  }

  lemma TangentStep(p: real, a: real, b: real, k: real, u: real, w: real, big: real)
    requires p >= 0.0 && b >= 0.0 && k >= 0.0 && big >= p * u
    requires u == (k + 1.0) * b - k * a && w == (k + 2.0) * b - (k + 1.0) * a
    ensures big * b >= (p * a) * w
  {
    Square(a, b, k, u, w);
    var gap := b * u - a * w;
    NonNegativeProduct(k + 1.0, (b - a) * (b - a));
    NonNegativeProduct(p, gap);
    assert p * gap == p * (b * u) - p * (a * w);
    NonNegativeProduct(big - p * u, b);
    assert (p * u) * b == p * (b * u) && (p * a) * w == p * (a * w);
  }

  /** b^(n+1) >= a^n * ((n+1) * b - n * a): the tangent bound behind AM-GM. */
  lemma {:induction false} TangentBound(a: real, b: real, n: nat)
    requires a >= 0.0 && b >= 0.0
    ensures Power(b, n + 1) >= Power(a, n) * ((n + 1) as real * b - n as real * a)
  {
    if n == 0 {
      assert Power(b, 1) == Power(b, 0) * b;
    } else {
      TangentBound(a, b, n - 1);
      PowerMonotone(0.0, a, n - 1);
      var k := (n - 1) as real;
      var u, w := n as real * b - k * a, (n + 1) as real * b - n as real * a;
      assert n as real == k + 1.0 && (n + 1) as real == k + 2.0;
      TangentStep(Power(a, n - 1), a, b, k, u, w, Power(b, n));
    }
  }

  /** The product never exceeds the n-th power of the mean. */
  lemma {:induction false} ProductBelowMean(xs: seq<real>, mean: real)
    requires xs != [] && NonNegative(xs) && mean * |xs| as real == Sum(xs)
    ensures mean >= 0.0 && Product(xs) <= Power(mean, |xs|)
  {
    SumNonNegative(xs);
    NonNegativeFactor(mean, |xs| as real);
    var n := |xs| - 1;
    var front, x := xs[..n], xs[n];
    if n == 0 {
      assert front == [];
      assert Power(mean, 1) == Power(mean, 0) * mean;
    } else {
      var before := Sum(front) / n as real;
      assert before * n as real == Sum(front);
      ProductBelowMean(front, before);
      TangentBound(before, mean, n);
      assert (n + 1) as real * mean - n as real * before == x;
      NonNegativeProduct(Power(before, n) - Product(front), x);
    }
  }

  /** Minimum, geometric mean and mean are ordered, on every non-empty list of scores in [0, 1]. */
  lemma MeansAreOrdered(scores: seq<real>, least: real, geometric: real, mean: real)
    requires scores != [] && UnitScores(scores)
    requires IsAggregate(scores, Minimum, least) && IsAggregate(scores, GeometricMean, geometric) && IsAggregate(scores, Mean, mean)
    ensures 0.0 <= least <= geometric <= mean
    ensures Power(least, |scores|) <= Product(scores) <= Power(mean, |scores|)
  {
    LeastBelowProduct(scores, least);
    ProductBelowMean(scores, mean);
    if exists i :: 0 <= i < |scores| && scores[i] <= 0.0 {
      var i :| 0 <= i < |scores| && scores[i] <= 0.0;
    } else {
      RootsCompare(least, geometric, |scores|);
      RootsCompare(geometric, mean, |scores|);
    }
  }

  /** Raising any scores never lowers the aggregate, under any mode. */
  lemma AggregateMonotone(xs: seq<real>, ys: seq<real>, aggregation: Aggregation, v: real, w: real)
    requires |xs| == |ys| && UnitScores(xs) && UnitScores(ys) && forall i :: 0 <= i < |xs| ==> xs[i] <= ys[i]
    requires IsAggregate(xs, aggregation, v) && IsAggregate(ys, aggregation, w)
    ensures v <= w
  {
    if xs != [] {
      match aggregation {
        case Minimum =>
          var i :| 0 <= i < |ys| && ys[i] == w;
        case Mean =>
          SumMonotone(xs, ys);
          assert v * |xs| as real <= w * |xs| as real;
        case GeometricMean =>
          ProductMonotone(xs, ys);
          if (forall i :: 0 <= i < |xs| ==> xs[i] > 0.0) {
            assert forall i :: 0 <= i < |ys| ==> ys[i] > 0.0;
            RootsCompare(v, w, |xs|);
          }
      }
    }
  }

  // ---- the scoring loop ----

  /** One instance: the run's verdict and what the evaluator said about its output. */
  datatype Instance =
    | NotOk
    | Invalid
    | EvaluatorBroke
    | Infeasible
    | Feasible(objective: real, score: Option<real>)

  datatype Config = Config(mode: ScoreMode, direction: Direction, aggregation: Aggregation)

  function ScoreOf(run: Instance, baseline: Option<real>, config: Config): Scored {
    match run
    case NotOk => Score(0.0)
    case Invalid => Score(0.0)
    case EvaluatorBroke => Failure
    case Infeasible => Score(0.0)
    case Feasible(objective, score) =>
      if config.mode.BaselineRatio? then
        if baseline.None? then Failure else Ratio(objective, baseline.value, config.direction)
      else if score.None? || !(0.0 <= score.value <= 1.0) then Failure
      else Score(score.value)
  }

  /** What an instance is worth, said on what was observed of it; a judge failure is worth nothing at all. */
  ghost predicate Earns(run: Instance, baseline: Option<real>, config: Config, score: real) {
    match run
    case NotOk => score == 0.0
    case Invalid => score == 0.0
    case Infeasible => score == 0.0
    case EvaluatorBroke => false
    case Feasible(objective, reported) =>
      match config.mode
      case BaselineRatio => baseline.Some? && IsShare(score, objective, baseline.value, config.direction)
      case CheckerScore => reported == Some(score) && 0.0 <= score && score <= 1.0
  }

  lemma ScoreIsEarned(run: Instance, baseline: Option<real>, config: Config, score: real)
    ensures ScoreOf(run, baseline, config) == Score(score) <==> Earns(run, baseline, config, score)
  {
    if run.Feasible? && baseline.Some? {
      RatioIsTheShare(run.objective, baseline.value, config.direction, score);
    }
  }

  lemma ScoresAreUnit(run: Instance, baseline: Option<real>, config: Config)
    requires ScoreOf(run, baseline, config).Score?
    ensures 0.0 <= ScoreOf(run, baseline, config).value <= 1.0
  {
    if run.Feasible? && config.mode.BaselineRatio? {
      RatioMonotone(run.objective, run.objective, baseline.value, config.direction);
    }
  }

  ghost predicate AllScored(runs: seq<Instance>, baselines: seq<Option<real>>, config: Config)
    requires |runs| == |baselines|
  {
    forall i :: 0 <= i < |runs| ==> ScoreOf(runs[i], baselines[i], config).Score?
  }

  /** Scores every instance in order; the first judge failure ends the evaluation. */
  method ScoreInstances(runs: seq<Instance>, baselines: seq<Option<real>>, config: Config)
    returns (ok: bool, scores: seq<real>)
    requires |runs| == |baselines|
    ensures ok <==> AllScored(runs, baselines, config)
    ensures ok ==> |scores| == |runs| && UnitScores(scores)
    ensures ok ==> forall i :: 0 <= i < |runs| ==> Score(scores[i]) == ScoreOf(runs[i], baselines[i], config)
    ensures ok ==> forall i :: 0 <= i < |runs| ==> Earns(runs[i], baselines[i], config, scores[i])
    ensures !ok ==> exists i :: 0 <= i < |runs| && forall score :: !Earns(runs[i], baselines[i], config, score)
  {
    hide Earns, ScoreOf;
    scores := [];
    for i := 0 to |runs|
      invariant |scores| == i && UnitScores(scores)
      invariant forall k :: 0 <= k < i ==> Score(scores[k]) == ScoreOf(runs[k], baselines[k], config)
      invariant forall k :: 0 <= k < i ==> Earns(runs[k], baselines[k], config, scores[k])
    {
      var scored := ScoreOf(runs[i], baselines[i], config);
      if scored.Failure? {
        forall score ensures !Earns(runs[i], baselines[i], config, score) {
          ScoreIsEarned(runs[i], baselines[i], config, score);
        }
        return false, [];
      }
      ScoresAreUnit(runs[i], baselines[i], config);
      ScoreIsEarned(runs[i], baselines[i], config, scored.value);
      scores := scores + [scored.value];
    }
    ok := true;
  }

  ghost predicate Scores(runs: seq<Instance>, baselines: seq<Option<real>>, config: Config, scores: seq<real>) {
    && |scores| == |runs| == |baselines|
    && forall i :: 0 <= i < |runs| ==> Score(scores[i]) == ScoreOf(runs[i], baselines[i], config)
  }

  /**
   Improving one feasible instance's objective in the declared direction never
   lowers the aggregate, and keeps the evaluation from failing exactly as long as
   the new objective is not negative or the checker gives the scores.
   */
  lemma ImprovementNeverHurts(
    runs: seq<Instance>, baselines: seq<Option<real>>, config: Config, scores: seq<real>, k: nat, objective: real, v: real)
    requires Scores(runs, baselines, config, scores)
    requires k < |runs| && runs[k].Feasible? && AtLeastAsGood(objective, runs[k].objective, config.direction)
    requires IsAggregate(scores, config.aggregation, v)
    ensures var improved := runs[k := runs[k].(objective := objective)];
      && (AllScored(improved, baselines, config) <==> objective >= 0.0 || config.mode.CheckerScore?)
      && forall better, w :: Scores(improved, baselines, config, better) && IsAggregate(better, config.aggregation, w) ==> v <= w
  {
    var improved := runs[k := runs[k].(objective := objective)];
    assert forall i :: 0 <= i < |runs| && i != k ==> improved[i] == runs[i];
    assert ScoreOf(runs[k], baselines[k], config) == Score(scores[k]);
    if config.mode.CheckerScore? {
      assert ScoreOf(improved[k], baselines[k], config) == Score(scores[k]);
    } else if objective >= 0.0 {
      RatioMonotone(runs[k].objective, objective, baselines[k].value, config.direction);
    } else {
      assert ScoreOf(improved[k], baselines[k], config).Failure?;
    }
    forall better, w | Scores(improved, baselines, config, better) && IsAggregate(better, config.aggregation, w) ensures v <= w {
      assert Score(better[k]) == ScoreOf(improved[k], baselines[k], config);
      UnitWhenScored(runs, baselines, config, scores);
      UnitWhenScored(improved, baselines, config, better);
      forall i | 0 <= i < |scores| ensures scores[i] <= better[i] {
        assert Score(better[i]) == ScoreOf(improved[i], baselines[i], config);
      }
      AggregateMonotone(scores, better, config.aggregation, v, w);
    }
  }

  lemma UnitWhenScored(runs: seq<Instance>, baselines: seq<Option<real>>, config: Config, scores: seq<real>)
    requires Scores(runs, baselines, config, scores)
    ensures UnitScores(scores)
  {
    forall i | 0 <= i < |scores| ensures 0.0 <= scores[i] <= 1.0 {
      ScoresAreUnit(runs[i], baselines[i], config);
    }
  }
}
