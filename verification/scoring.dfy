/**
 Candidate scoring (`score_candidate`): the weight-normalised sum of a candidate's
 skill counts, scaled by ten, then rounded to two decimals.

 A weight dictionary is a sequence of (category, weight) entries in the
 dictionary's iteration order. Weights and scores are real numbers; the
 division by a zero total weight, which raises in the source, is the error
 `ZeroTotalWeight`.
 */
module Scoring {

  datatype Option<T> = None | Some(value: T)

  /** Why a score could not be computed. */
  datatype ScoreError = ZeroTotalWeight

  /** A value, or the error that stopped its computation. */
  datatype Result<T> = Ok(value: T) | Err(error: ScoreError)

  /** Category weights in iteration order. */
  type Weights = seq<(string, real)>

  /** The weights used when none are given. */
  const DefaultWeights: Weights := [("python", 0.3), ("leadership", 0.25), ("web", 0.25), ("data", 0.2)]

  /** `resume_skills.get(category, 0)` */
  function CountOf(skills: map<string, nat>, category: string): nat
  {
    if category in skills then skills[category] else 0
  }

  /** The sum of the weights. */
  function TotalWeight(ws: Weights): real
  {
    if |ws| == 0 then 0.0 else ws[0].1 + TotalWeight(ws[1..])
  }

  /** The sum of `count * weight * 10` over the weighted categories. */
  function Points(skills: map<string, nat>, ws: Weights): real
  {
    if |ws| == 0 then 0.0
    else CountOf(skills, ws[0].0) as real * ws[0].1 * 10.0 + Points(skills, ws[1..])
  }

  /** The largest count among the weighted categories. */
  function MaxCount(skills: map<string, nat>, ws: Weights): (m: nat)
    ensures forall k :: 0 <= k < |ws| ==> CountOf(skills, ws[k].0) <= m
  {
    if |ws| == 0 then 0
    else
      var rest := MaxCount(skills, ws[1..]);
      var here := CountOf(skills, ws[0].0);
      if here > rest then here else rest
  }

  /** The bound is reached: it is the count of some weighted category, or 0
      when nothing is weighted. */
  lemma {:induction false} MaxCountAttained(skills: map<string, nat>, ws: Weights)
    ensures |ws| == 0 ==> MaxCount(skills, ws) == 0
    ensures |ws| > 0 ==> exists k :: 0 <= k < |ws| && CountOf(skills, ws[k].0) == MaxCount(skills, ws)
  {
    if |ws| > 1 {
      MaxCountAttained(skills, ws[1..]);
      var k :| 0 <= k < |ws[1..]| && CountOf(skills, ws[1..][k].0) == MaxCount(skills, ws[1..]);
      assert ws[k + 1] == ws[1..][k];
      if MaxCount(skills, ws) != CountOf(skills, ws[0].0) {
        assert CountOf(skills, ws[k + 1].0) == MaxCount(skills, ws);
      }
    } else if |ws| == 1 {
      assert MaxCount(skills, ws[1..]) == 0;
      assert CountOf(skills, ws[0].0) == MaxCount(skills, ws);
    }
  }

  /** `weights=None` falls back to the default weights; any given dictionary,
      even an empty one, is used as it is. */
  function EffectiveWeights(weights: Option<Weights>): (ws: Weights)
    ensures weights.None? ==> ws == DefaultWeights
    ensures weights.Some? ==> ws == weights.value
    ensures weights.None? ==> TotalWeight(ws) == 1.0 && forall k :: 0 <= k < |ws| ==> ws[k].1 > 0.0
  {
    match weights
    case None => DefaultWeightsTotal(); DefaultWeights
    case Some(w) => w
  }

  /** The default weights are positive and sum to 1. */
  lemma DefaultWeightsTotal()
    ensures TotalWeight(DefaultWeights) == 1.0
    ensures forall k :: 0 <= k < |DefaultWeights| ==> DefaultWeights[k].1 > 0.0
  {
    var ws := DefaultWeights;
    var w1, w2, w3 := ws[1..], ws[2..], ws[3..];
    assert w1[1..] == w2 && w2[1..] == w3 && w3[1..] == [];
    assert TotalWeight(w3) == 0.2;
    assert TotalWeight(w2) == 0.45;
    assert TotalWeight(w1) == 0.7;
  }

  /** The score before rounding. `jobSkills` is accepted and never read. */
  function RawScore(skills: map<string, nat>, jobSkills: map<string, nat>, weights: Option<Weights>): (r: Result<real>)
    ensures r.Err? <==> TotalWeight(EffectiveWeights(weights)) == 0.0
  {
    var ws := EffectiveWeights(weights);
    var total := TotalWeight(ws);
    if total == 0.0 then Err(ZeroTotalWeight)
    else Ok(Points(skills, ws) / total)
  }

  // ---------------------------------------------------------------------------
  // Rounding to two decimals
  // ---------------------------------------------------------------------------

  /** `r` is a whole number of hundredths. */
  ghost predicate IsCents(r: real)
  {
    (r * 100.0).Floor as real == r * 100.0
  }

  /** `round(x, 2)` on exact reals: the nearest multiple of 0.01, ties going to
      the even number of hundredths. */
  function Round2(x: real): (r: real)
    ensures IsCents(r)
    ensures -0.5 <= r * 100.0 - x * 100.0 <= 0.5
    ensures r * 100.0 - x * 100.0 == 0.5 || x * 100.0 - r * 100.0 == 0.5 ==> (r * 100.0).Floor % 2 == 0
  {
    var scaled := x * 100.0;
    var n := scaled.Floor;
    var frac := scaled - n as real;
    var k := if frac > 0.5 then n + 1
             else if frac < 0.5 then n
             else if n % 2 == 0 then n
             else n + 1;
    assert (k as real / 100.0) * 100.0 == k as real;
    k as real / 100.0
  }

  /** Rounding never reverses the order of two values. */
  lemma Round2Monotone(x: real, y: real)
    requires x <= y
    ensures Round2(x) <= Round2(y)
  {
    var nx := (x * 100.0).Floor;
    var ny := (y * 100.0).Floor;
    assert nx <= ny;
    var kx := (Round2(x) * 100.0).Floor;
    var ky := (Round2(y) * 100.0).Floor;
    assert kx as real == Round2(x) * 100.0;
    assert ky as real == Round2(y) * 100.0;
    assert kx <= ky;
  }

  /** A whole number of hundredths is left as it is. */
  lemma Round2OfCents(m: int)
    ensures Round2(m as real / 100.0) == m as real / 100.0
  {
    assert (m as real / 100.0) * 100.0 == m as real;
  }

  /** The score returned to callers: the raw score rounded to two decimals. */
  function ScoreCandidate(skills: map<string, nat>, jobSkills: map<string, nat>, weights: Option<Weights>): (r: Result<real>)
    ensures r.Err? <==> RawScore(skills, jobSkills, weights).Err?
    ensures r.Ok? ==> IsCents(r.value) && -0.005 <= r.value - RawScore(skills, jobSkills, weights).value <= 0.005
  {
    match RawScore(skills, jobSkills, weights)
    case Err(e) => Err(e)
    case Ok(v) => Ok(Round2(v))
  }

  /** With given weights of non-zero total, the raw score is the points over the total. */
  lemma RawScoreOfWeights(skills: map<string, nat>, jobSkills: map<string, nat>, ws: Weights)
    ensures TotalWeight(ws) != 0.0 ==> RawScore(skills, jobSkills, Some(ws)) == Ok(Points(skills, ws) / TotalWeight(ws))
    ensures TotalWeight(ws) == 0.0 ==> RawScore(skills, jobSkills, Some(ws)) == Err(ZeroTotalWeight)
  {
  }

  // ---------------------------------------------------------------------------
  // Real arithmetic used below
  // ---------------------------------------------------------------------------

  lemma DivUnique(p: real, t: real, v: real)
    requires t != 0.0 && v * t == p
    ensures p / t == v
  {
  }

  lemma DivScale(p: real, t: real, f: real)
    requires t != 0.0 && f != 0.0
    ensures (f * p) / (f * t) == p / t
  {
    var v := p / t;
    assert v * t == p;
    assert v * (f * t) == f * p;
    DivUnique(f * p, f * t, v);
  }

  lemma MeanOfUniform(p: real, t: real, c: real)
    requires t != 0.0 && p == 10.0 * c * t
    ensures p / t == 10.0 * c
  {
    DivUnique(p, t, 10.0 * c);
  }

  lemma MulLeq(a: real, b: real, w: real)
    requires a <= b && 0.0 <= w
    ensures a * w <= b * w
  {
  }

  lemma DivLeq(p: real, t: real, m: real)
    requires t > 0.0 && p <= m * t
    ensures p / t <= m
  {
    var v := p / t;
    assert v * t == p;
    if v > m {
      assert (v - m) * t > 0.0;
    }
  }

  // ---------------------------------------------------------------------------
  // Properties of the score
  // ---------------------------------------------------------------------------

  /** The score does not depend on the unused `jobSkills` argument. */
  lemma JobSkillsIgnored(skills: map<string, nat>, j1: map<string, nat>, j2: map<string, nat>, weights: Option<Weights>)
    ensures ScoreCandidate(skills, j1, weights) == ScoreCandidate(skills, j2, weights)
  {
  }

  /** Only the counts of the weighted categories enter the points. */
  lemma {:induction false} PointsOnlyReadWeighted(s1: map<string, nat>, s2: map<string, nat>, ws: Weights)
    requires forall k :: 0 <= k < |ws| ==> CountOf(s1, ws[k].0) == CountOf(s2, ws[k].0)
    ensures Points(s1, ws) == Points(s2, ws)
  {
    if |ws| > 0 {
      PointsOnlyReadWeighted(s1, s2, ws[1..]);
    }
  }

  /** Two skill maps that agree on every weighted category score the same:
      categories absent from the weights do not affect the score. */
  lemma UnweightedCategoriesIgnored(s1: map<string, nat>, s2: map<string, nat>, jobSkills: map<string, nat>, weights: Option<Weights>)
    requires forall k :: 0 <= k < |EffectiveWeights(weights)| ==>
      CountOf(s1, EffectiveWeights(weights)[k].0) == CountOf(s2, EffectiveWeights(weights)[k].0)
    ensures RawScore(s1, jobSkills, weights) == RawScore(s2, jobSkills, weights)
  {
    PointsOnlyReadWeighted(s1, s2, EffectiveWeights(weights));
  }

  /** When every weighted category has the same count, the points are ten times
      that count times the total weight. */
  lemma {:induction false} PointsOfUniformCounts(skills: map<string, nat>, ws: Weights, c: nat)
    requires forall k :: 0 <= k < |ws| ==> CountOf(skills, ws[k].0) == c
    ensures Points(skills, ws) == 10.0 * c as real * TotalWeight(ws)
  {
    if |ws| > 0 {
      PointsOfUniformCounts(skills, ws[1..], c);
    }
  }

  /** The score is a weighted mean: if every weighted category has count `c`,
      the score is `10 * c` whatever the (non-zero-total) weights. */
  lemma UniformCountsScore(skills: map<string, nat>, jobSkills: map<string, nat>, ws: Weights, c: nat)
    requires TotalWeight(ws) != 0.0
    requires forall k :: 0 <= k < |ws| ==> CountOf(skills, ws[k].0) == c
    ensures RawScore(skills, jobSkills, Some(ws)) == Ok(10.0 * c as real)
  {
    RawScoreOfWeights(skills, jobSkills, ws);
    UniformCountsMean(skills, ws, c);
    var v := 10.0 * c as real;
    assert Points(skills, ws) / TotalWeight(ws) == v;
  }

  lemma UniformCountsMean(skills: map<string, nat>, ws: Weights, c: nat)
    requires TotalWeight(ws) != 0.0
    requires forall k :: 0 <= k < |ws| ==> CountOf(skills, ws[k].0) == c
    ensures Points(skills, ws) / TotalWeight(ws) == 10.0 * c as real
  {
    PointsOfUniformCounts(skills, ws, c);
    MeanOfUniform(Points(skills, ws), TotalWeight(ws), c as real);
  }

  /** An empty skills map scores 0 under any weights with a non-zero total. */
  lemma EmptySkillsScoreZero(jobSkills: map<string, nat>, weights: Option<Weights>)
    requires TotalWeight(EffectiveWeights(weights)) != 0.0
    ensures RawScore(map[], jobSkills, weights) == Ok(0.0)
    ensures ScoreCandidate(map[], jobSkills, weights) == Ok(0.0)
  {
    var ws := EffectiveWeights(weights);
    PointsOfUniformCounts(map[], ws, 0);
    Round2OfCents(0);
  }

  /** A zero total weight, in particular an empty weight dictionary, makes
      every call fail. */
  lemma ZeroTotalWeightFails(skills: map<string, nat>, jobSkills: map<string, nat>, ws: Weights)
    requires TotalWeight(ws) == 0.0
    ensures ScoreCandidate(skills, jobSkills, Some(ws)) == Err(ZeroTotalWeight)
    ensures ScoreCandidate(skills, jobSkills, Some([])) == Err(ZeroTotalWeight)
  {
  }

  /** Without weights the defaults apply; they total 1, so the score is
      3 per python keyword, 2.5 per leadership or web keyword and 2 per data keyword. */
  lemma DefaultWeightsScore(skills: map<string, nat>, jobSkills: map<string, nat>)
    ensures TotalWeight(DefaultWeights) == 1.0
    ensures RawScore(skills, jobSkills, None) == Ok(
      3.0 * CountOf(skills, "python") as real + 2.5 * CountOf(skills, "leadership") as real
      + 2.5 * CountOf(skills, "web") as real + 2.0 * CountOf(skills, "data") as real)
  {
    var ws := DefaultWeights;
    var w1, w2, w3 := ws[1..], ws[2..], ws[3..];
    assert w1[1..] == w2 && w2[1..] == w3 && w3[1..] == [];
    DefaultWeightsTotal();
    var p, l, w, d := CountOf(skills, "python") as real, CountOf(skills, "leadership") as real,
                      CountOf(skills, "web") as real, CountOf(skills, "data") as real;
    assert Points(skills, w3) == 2.0 * d;
    assert Points(skills, w2) == 2.5 * w + 2.0 * d;
    assert Points(skills, w1) == 2.5 * l + 2.5 * w + 2.0 * d;
    assert Points(skills, ws) == 3.0 * p + 2.5 * l + 2.5 * w + 2.0 * d;
  }


  /** With non-negative weights the points lie between 0 and ten times the
      largest weighted count times the total weight. */
  lemma PointsBounds(skills: map<string, nat>, ws: Weights)
    requires forall k :: 0 <= k < |ws| ==> ws[k].1 >= 0.0
    ensures 0.0 <= Points(skills, ws) <= 10.0 * MaxCount(skills, ws) as real * TotalWeight(ws)
    ensures TotalWeight(ws) >= 0.0
  {
    var cs := CountsOf(skills, ws);
    var m := MaxCount(skills, ws) as real;
    PointsAsDot(skills, ws);
    CountsWithinMax(skills, ws);
    DotBounds(cs, ws, m);
    TenTimesBound(Points(skills, ws), Dot(cs, ws), m, TotalWeight(ws));
  }

  lemma CountsWithinMax(skills: map<string, nat>, ws: Weights)
    ensures forall k :: 0 <= k < |ws| ==> 0.0 <= CountsOf(skills, ws)[k] <= MaxCount(skills, ws) as real
  {
  }

  lemma TenTimesBound(p: real, d: real, m: real, t: real)
    requires p == 10.0 * d && 0.0 <= d <= m * t
    ensures 0.0 <= p <= 10.0 * m * t
  {
  }

  /** With non-negative weights of positive total, the score lies between 0 and
      ten times the largest weighted count; it is not capped at 10. */
  lemma ScoreBounds(skills: map<string, nat>, jobSkills: map<string, nat>, ws: Weights)
    requires forall k :: 0 <= k < |ws| ==> ws[k].1 >= 0.0
    requires TotalWeight(ws) > 0.0
    ensures RawScore(skills, jobSkills, Some(ws)).Ok?
    ensures 0.0 <= RawScore(skills, jobSkills, Some(ws)).value <= 10.0 * MaxCount(skills, ws) as real
    ensures 0.0 <= ScoreCandidate(skills, jobSkills, Some(ws)).value <= 10.0 * MaxCount(skills, ws) as real
  {
    RawScoreBounds(skills, jobSkills, ws);
    RoundWithin(RawScore(skills, jobSkills, Some(ws)).value, MaxCount(skills, ws));
  }

  lemma RawScoreBounds(skills: map<string, nat>, jobSkills: map<string, nat>, ws: Weights)
    requires forall k :: 0 <= k < |ws| ==> ws[k].1 >= 0.0
    requires TotalWeight(ws) > 0.0
    ensures RawScore(skills, jobSkills, Some(ws)).Ok?
    ensures 0.0 <= RawScore(skills, jobSkills, Some(ws)).value <= 10.0 * MaxCount(skills, ws) as real
  {
    PointsBounds(skills, ws);
    RawScoreOfWeights(skills, jobSkills, ws);
    QuotientBounds(Points(skills, ws), TotalWeight(ws), 10.0 * MaxCount(skills, ws) as real);
  }

  lemma QuotientBounds(p: real, t: real, m: real)
    requires t > 0.0 && 0.0 <= p <= m * t
    ensures 0.0 <= p / t <= m
  {
    DivLeq(p, t, m);
  }

  /** Rounding a value in `[0, 10 n]` stays in `[0, 10 n]`. */
  lemma RoundWithin(v: real, n: nat)
    requires 0.0 <= v <= 10.0 * n as real
    ensures 0.0 <= Round2(v) <= 10.0 * n as real
  {
    Round2Monotone(0.0, v);
    Round2Monotone(v, 10.0 * n as real);
    Round2OfCents(0);
    Round2OfCents(1000 * n);
    assert (1000 * n) as real / 100.0 == 10.0 * n as real;
  }

  /** The score is not capped at 10: three python keywords under a single
      python weight score 30. */
  lemma ScoreCanExceedTen(jobSkills: map<string, nat>)
    ensures ScoreCandidate(map["python" := 3], jobSkills, Some([("python", 1.0)])) == Ok(30.0)
  {
    Round2OfCents(3000);
  }

  // ---------------------------------------------------------------------------
  // Points as a dot product of counts and weights
  // ---------------------------------------------------------------------------

  // The bound and scaling arguments run on real-valued counts, so the solver
  // does not have to mix integer counts into the products.

  /** The sum of each count times its category's weight. */
  function Dot(cs: seq<real>, ws: Weights): real
    requires |cs| == |ws|
  {
    if |ws| == 0 then 0.0 else cs[0] * ws[0].1 + Dot(cs[1..], ws[1..])
  }

  /** The counts of the weighted categories, as reals. */
  function CountsOf(skills: map<string, nat>, ws: Weights): (cs: seq<real>)
    ensures |cs| == |ws|
    ensures forall k :: 0 <= k < |ws| ==> cs[k] == CountOf(skills, ws[k].0) as real
  {
    if |ws| == 0 then [] else [CountOf(skills, ws[0].0) as real] + CountsOf(skills, ws[1..])
  }

  lemma {:induction false} PointsAsDot(skills: map<string, nat>, ws: Weights)
    ensures Points(skills, ws) == 10.0 * Dot(CountsOf(skills, ws), ws)
  {
    if |ws| > 0 {
      var cs := CountsOf(skills, ws);
      PointsAsDot(skills, ws[1..]);
      assert cs[1..] == CountsOf(skills, ws[1..]);
      DotStep(cs[0], ws[0].1, Dot(cs[1..], ws[1..]), Points(skills, ws[1..]));
    }
  }

  lemma DotStep(c: real, w: real, d: real, pr: real)
    requires pr == 10.0 * d
    ensures c * w * 10.0 + pr == 10.0 * (c * w + d)
  {
  }

  /** Counts in `[0, m]` against non-negative weights give a dot product
      between 0 and `m` times the total weight. */
  lemma {:induction false} DotBounds(cs: seq<real>, ws: Weights, m: real)
    requires |cs| == |ws|
    requires forall k :: 0 <= k < |ws| ==> 0.0 <= cs[k] <= m
    requires forall k :: 0 <= k < |ws| ==> ws[k].1 >= 0.0
    ensures 0.0 <= Dot(cs, ws) <= m * TotalWeight(ws)
    ensures TotalWeight(ws) >= 0.0
  {
    if |ws| > 0 {
      DotBounds(cs[1..], ws[1..], m);
      BoundStep(cs[0], ws[0].1, m, TotalWeight(ws[1..]), Dot(cs[1..], ws[1..]), TotalWeight(ws), Dot(cs, ws));
    }
  }

  /** One step of `DotBounds`. */
  lemma BoundStep(c: real, w: real, m: real, tr: real, dr: real, t: real, d: real)
    requires 0.0 <= c <= m && 0.0 <= w && 0.0 <= tr
    requires 0.0 <= dr <= m * tr
    requires t == w + tr && d == c * w + dr
    ensures 0.0 <= d <= m * t && t >= 0.0
  {
    MulLeq(c, m, w);
    assert 0.0 <= c * w;
    assert m * t == m * w + m * tr;
  }

  // ---------------------------------------------------------------------------
  // Scaling the weights
  // ---------------------------------------------------------------------------

  /** Weights scaled by a factor. */
  function ScaleWeights(ws: Weights, factor: real): (scaled: Weights)
    ensures |scaled| == |ws|
    ensures forall k :: 0 <= k < |ws| ==> scaled[k].0 == ws[k].0 && scaled[k].1 == ws[k].1 * factor
  {
    if |ws| == 0 then [] else [(ws[0].0, ws[0].1 * factor)] + ScaleWeights(ws[1..], factor)
  }

  /** Scaling the weights scales their total. */
  lemma {:induction false} ScaleWeightsTotal(ws: Weights, factor: real)
    ensures TotalWeight(ScaleWeights(ws, factor)) == factor * TotalWeight(ws)
  {
    if |ws| > 0 {
      var scaled := ScaleWeights(ws, factor);
      ScaleWeightsTotal(ws[1..], factor);
      assert scaled[1..] == ScaleWeights(ws[1..], factor);
      Distribute(factor, ws[0].1, TotalWeight(ws[1..]));
    }
  }

  /** Scaling the weights scales a dot product with them. */
  lemma {:induction false} DotScale(cs: seq<real>, ws: Weights, f: real)
    requires |cs| == |ws|
    ensures Dot(cs, ScaleWeights(ws, f)) == f * Dot(cs, ws)
  {
    if |ws| > 0 {
      var scaled := ScaleWeights(ws, f);
      DotScale(cs[1..], ws[1..], f);
      assert scaled[1..] == ScaleWeights(ws[1..], f);
      ScaledProduct(cs[0], ws[0].1, f, Dot(cs[1..], ws[1..]), Dot(cs[1..], scaled[1..]));
    }
  }

  lemma ScaledProduct(c: real, w: real, f: real, d: real, ds: real)
    requires ds == f * d
    ensures c * (w * f) + ds == f * (c * w + d)
  {
  }

  /** Scaling keeps every category, so the counts read are the same. */
  lemma ScaledCounts(skills: map<string, nat>, ws: Weights, factor: real)
    ensures CountsOf(skills, ScaleWeights(ws, factor)) == CountsOf(skills, ws)
  {
    var scaled := ScaleWeights(ws, factor);
    assert forall k :: 0 <= k < |ws| ==> CountsOf(skills, scaled)[k] == CountsOf(skills, ws)[k];
  }

  /** Scaling the weights scales the points. */
  lemma ScaleWeightsPoints(skills: map<string, nat>, ws: Weights, factor: real)
    ensures Points(skills, ScaleWeights(ws, factor)) == factor * Points(skills, ws)
  {
    var scaled := ScaleWeights(ws, factor);
    var cs := CountsOf(skills, ws);
    ScaledCounts(skills, ws, factor);
    PointsAsDot(skills, ws);
    PointsAsDot(skills, scaled);
    DotScale(cs, ws, factor);
    TenTimes(factor, Dot(cs, ws));
  }

  lemma Distribute(f: real, a: real, b: real)
    ensures f * (a + b) == f * a + f * b
  {
  }

  lemma TenTimes(f: real, d: real)
    ensures 10.0 * (f * d) == f * (10.0 * d)
  {
  }

  /** With given weights of non-zero total, the raw score is ten times the dot
      product of the count vector with the weights, over the total weight. */
  lemma RawScoreAsDot(skills: map<string, nat>, jobSkills: map<string, nat>, ws: Weights)
    requires TotalWeight(ws) != 0.0
    ensures RawScore(skills, jobSkills, Some(ws)) == Ok(10.0 * Dot(CountsOf(skills, ws), ws) / TotalWeight(ws))
  {
    RawScoreOfWeights(skills, jobSkills, ws);
    PointsAsDot(skills, ws);
  }

  /** Multiplying every weight by the same positive factor leaves the score unchanged. */
  lemma ScaleInvariant(skills: map<string, nat>, jobSkills: map<string, nat>, ws: Weights, factor: real)
    requires factor > 0.0
    ensures RawScore(skills, jobSkills, Some(ScaleWeights(ws, factor))) == RawScore(skills, jobSkills, Some(ws))
  {
    ScaledRatio(skills, ws, factor);
    RawScoreOfWeights(skills, jobSkills, ws);
    RawScoreOfWeights(skills, jobSkills, ScaleWeights(ws, factor));
  }

  /** Scaled weights have a zero total exactly when the original ones do, and
      give the same points-to-total ratio. */
  lemma ScaledRatio(skills: map<string, nat>, ws: Weights, factor: real)
    requires factor > 0.0
    ensures TotalWeight(ScaleWeights(ws, factor)) == 0.0 <==> TotalWeight(ws) == 0.0
    ensures TotalWeight(ws) != 0.0 ==>
      Points(skills, ScaleWeights(ws, factor)) / TotalWeight(ScaleWeights(ws, factor)) == Points(skills, ws) / TotalWeight(ws)
  {
    var scaled := ScaleWeights(ws, factor);
    ScaleWeightsTotal(ws, factor);
    ScaleWeightsPoints(skills, ws, factor);
    RatioScale(Points(skills, ws), TotalWeight(ws), Points(skills, scaled), TotalWeight(scaled), factor);
  }

  lemma RatioScale(p: real, t: real, ps: real, ts: real, f: real)
    requires f > 0.0 && ps == f * p && ts == f * t
    ensures ts == 0.0 <==> t == 0.0
    ensures t != 0.0 ==> ps / ts == p / t
  {
    ProductZero(f, t);
    if t != 0.0 {
      DivScale(p, t, f);
    }
  }

  lemma ProductZero(f: real, t: real)
    requires f != 0.0
    ensures f * t == 0.0 <==> t == 0.0
  {
  }
}
