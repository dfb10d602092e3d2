/** The score of the scoring script: each component is scaled to its own range over all
    validators, and the scaled components are averaged with weights. */
module Score {
  import opened Products
  import opened Sequences
  import opened Wrappers

  function Lowest(column: seq<real>): (r: real)
    requires column != []
    ensures r in column && forall x :: x in column ==> r <= x
  {
    if |column| == 1 then column[0]
    else
      var rest := Lowest(column[1..]);
      assert forall x :: x in column <==> x == column[0] || x in column[1..];
      if column[0] <= rest then column[0] else rest
  }

  function Highest(column: seq<real>): (r: real)
    requires column != []
    ensures r in column && forall x :: x in column ==> x <= r
  {
    if |column| == 1 then column[0]
    else
      var rest := Highest(column[1..]);
      assert forall x :: x in column <==> x == column[0] || x in column[1..];
      if column[0] >= rest then column[0] else rest
  }

  function Scaled(low: real, high: real): real -> real
    requires low < high
  {
    (x: real) => (x - low) / (high - low)
  }

  /** The column scaled to its range; none when all values are equal, where the script
      divides zero by zero. */
  function Normalize(column: seq<real>): (r: Option<seq<real>>)
    ensures r.Some? ==> |r.value| == |column|
  {
    if column == [] then Some([])
    else if Lowest(column) == Highest(column) then None
    else
      var l, h := Lowest(column), Highest(column);
      assert l <= h;
      Some(Map(Scaled(l, h), column))
  }

  lemma {:induction false} QuotientOrder(x: real, y: real, d: real)
    requires 0.0 < d
    ensures x / d <= y / d <==> x <= y
  {
    var a, b := x / d, y / d;
    assert a * d == x && b * d == y;
    if a <= b {
      assert (b - a) * d >= 0.0;
    } else {
      assert (a - b) * d > 0.0;
    }
  }

  lemma {:induction false} ScaledFacts(l: real, h: real, x: real, y: real)
    requires l < h && l <= x <= h
    ensures 0.0 <= Scaled(l, h)(x) <= 1.0
    ensures Scaled(l, h)(x) <= Scaled(l, h)(y) <==> x <= y
    ensures Scaled(l, h)(x) == 0.0 <==> x == l
    ensures Scaled(l, h)(x) == 1.0 <==> x == h
  {
    var d := h - l;
    QuotientOrder(x - l, y - l, d);
    QuotientOrder(0.0, x - l, d);
    QuotientOrder(x - l, 0.0, d);
    QuotientOrder(x - l, d, d);
    QuotientOrder(d, x - l, d);
    assert d / d == 1.0 && 0.0 / d == 0.0;
  }

  /** Scaling keeps the order, and puts every value between 0 and 1. */
  lemma {:induction false} NormalizeKeepsOrder(column: seq<real>, i: nat, j: nat)
    requires i < |column| && j < |column| && Normalize(column).Some?
    ensures var n := Normalize(column).value;
      && 0.0 <= n[i] <= 1.0
      && (n[i] <= n[j] <==> column[i] <= column[j])
      && (n[i] == 0.0 <==> column[i] == Lowest(column))
      && (n[i] == 1.0 <==> column[i] == Highest(column))
  {
    var l, h := Lowest(column), Highest(column);
    assert column[i] in column && l <= h;
    ScaledFacts(l, h, column[i], column[j]);
  }

  /** Scaling is linear between the lowest and the highest value. */
  lemma {:induction false} NormalizeIsLinear(column: seq<real>, i: nat)
    requires i < |column| && Normalize(column).Some?
    ensures Lowest(column) < Highest(column)
    ensures Times(Normalize(column).value[i], Highest(column) - Lowest(column)) == column[i] - Lowest(column)
  {
    var l, h := Lowest(column), Highest(column);
    assert column[i] in column && l <= h;
    assert Normalize(column).value[i] == Scaled(l, h)(column[i]);
    QuotientTimes(column[i] - l, h - l);
  }

  lemma {:induction false} QuotientTimes(x: real, d: real)
    requires d != 0.0
    ensures Times(x / d, d) == x
  {
  }

  function Affine(scale: real, shift: real): real -> real {
    (x: real) => x * scale + shift
  }

  ghost predicate Increasing(f: real -> real) {
    forall x, y :: x <= y <==> f(x) <= f(y)
  }

  lemma {:induction false} IncreasingLowest(column: seq<real>, f: real -> real)
    requires column != [] && Increasing(f)
    ensures Lowest(Map(f, column)) == f(Lowest(column))
  {
    if |column| > 1 {
      IncreasingLowest(column[1..], f);
    }
  }

  lemma {:induction false} IncreasingHighest(column: seq<real>, f: real -> real)
    requires column != [] && Increasing(f)
    ensures Highest(Map(f, column)) == f(Highest(column))
  {
    if |column| > 1 {
      IncreasingHighest(column[1..], f);
    }
  }

  lemma {:induction false} AffineExtremes(column: seq<real>, scale: real, shift: real)
    requires column != [] && 0.0 < scale
    ensures Lowest(Map(Affine(scale, shift), column)) == Affine(scale, shift)(Lowest(column))
    ensures Highest(Map(Affine(scale, shift), column)) == Affine(scale, shift)(Highest(column))
  {
    var f := Affine(scale, shift);
    forall x, y ensures x <= y <==> f(x) <= f(y) {
      AffineOrder(x, y, scale, shift);
    }
    IncreasingLowest(column, f);
    IncreasingHighest(column, f);
  }

  lemma {:induction false} AffineOrder(x: real, y: real, scale: real, shift: real)
    requires 0.0 < scale
    ensures x <= y <==> Affine(scale, shift)(x) <= Affine(scale, shift)(y)
  {
    assert (y - x) * scale == y * scale - x * scale;
    if x <= y {
      assert (y - x) * scale >= 0.0;
    } else {
      assert (y - x) * scale < 0.0;
    }
  }

  lemma {:induction false} AffineScaled(x: real, l: real, h: real, scale: real, shift: real)
    requires 0.0 < scale && l < h
    ensures Affine(scale, shift)(l) < Affine(scale, shift)(h)
    ensures Scaled(Affine(scale, shift)(l), Affine(scale, shift)(h))(Affine(scale, shift)(x)) == Scaled(l, h)(x)
  {
    AffineOrder(h, l, scale, shift);
    var d, e := h - l, Affine(scale, shift)(h) - Affine(scale, shift)(l);
    var q := (x - l) / d;
    assert e == d * scale;
    assert q * d == x - l;
    assert Affine(scale, shift)(x) - Affine(scale, shift)(l) == (x - l) * scale;
    assert (x - l) * scale == q * e;
    assert q * e / e == q;
  }

  /** The unit and the origin of a component do not matter. */
  lemma {:induction false} NormalizeIgnoresUnits(column: seq<real>, scale: real, shift: real)
    requires 0.0 < scale
    ensures Normalize(Map(Affine(scale, shift), column)) == Normalize(column)
  {
    if column != [] {
      AffineExtremes(column, scale, shift);
      var l, h := Lowest(column), Highest(column);
      assert column[0] in column && l <= h;
      AffineOrder(h, l, scale, shift);
      if l < h {
        ScaledColumns(column, l, h, scale, shift);
      }
    }
  }

  lemma {:induction false} ScaledColumns(column: seq<real>, l: real, h: real, scale: real, shift: real)
    requires 0.0 < scale && l < h
    ensures Affine(scale, shift)(l) < Affine(scale, shift)(h)
    ensures Map(Scaled(Affine(scale, shift)(l), Affine(scale, shift)(h)), Map(Affine(scale, shift), column)) ==
      Map(Scaled(l, h), column)
  {
    AffineScaled(l, l, h, scale, shift);
    if column != [] {
      AffineScaled(column[0], l, h, scale, shift);
      ScaledColumns(column[1..], l, h, scale, shift);
    }
  }

  datatype Weights = Weights(concentration: real, skipRate: real, credits: real)

  function Sum(w: Weights): real { w.credits + w.skipRate + w.concentration }

  ghost predicate ValidWeights(w: Weights) {
    0.0 <= w.concentration && 0.0 <= w.skipRate && 0.0 <= w.credits && 0.0 < Sum(w)
  }

  function Weighted(w: Weights, concentration: real, skipRate: real, credits: real): real {
    0.0 + Times(concentration, w.concentration) + Times(skipRate, w.skipRate) + Times(credits, w.credits)
  }

  function WeightedScore(w: Weights, concentration: real, skipRate: real, credits: real): real
    requires Sum(w) != 0.0
  {
    Weighted(w, concentration, skipRate, credits) / Sum(w)
  }

  lemma {:induction false} WeightOrder(x: real, y: real, w: real)
    requires 0.0 <= w && x <= y
    ensures Times(x, w) <= Times(y, w)
  {
    assert (y - x) * w >= 0.0;
    assert (y - x) * w == y * w - x * w;
  }

  lemma {:induction false} WeightedMonotone(w: Weights, c: real, s: real, k: real, c': real, s': real, k': real)
    requires ValidWeights(w) && c <= c' && s <= s' && k <= k'
    ensures Weighted(w, c, s, k) <= Weighted(w, c', s', k')
  {
    WeightOrder(c, c', w.concentration);
    WeightOrder(s, s', w.skipRate);
    WeightOrder(k, k', w.credits);
  }

  /** A validator that is at least as good in every component scores at least as much. */
  lemma {:induction false} ScoreMonotone(w: Weights, c: real, s: real, k: real, c': real, s': real, k': real)
    requires ValidWeights(w) && c <= c' && s <= s' && k <= k'
    ensures WeightedScore(w, c, s, k) <= WeightedScore(w, c', s', k')
  {
    WeightedMonotone(w, c, s, k, c', s', k');
    QuotientOrder(Weighted(w, c, s, k), Weighted(w, c', s', k'), Sum(w));
  }

  /** Scores lie between 0 and 1. */
  lemma {:induction false} ScoreInRange(w: Weights, c: real, s: real, k: real)
    requires ValidWeights(w) && 0.0 <= c <= 1.0 && 0.0 <= s <= 1.0 && 0.0 <= k <= 1.0
    ensures 0.0 <= WeightedScore(w, c, s, k) <= 1.0
  {
    ScoreMonotone(w, 0.0, 0.0, 0.0, c, s, k);
    ScoreMonotone(w, c, s, k, 1.0, 1.0, 1.0);
    assert WeightedScore(w, 1.0, 1.0, 1.0) == Sum(w) / Sum(w) == 1.0;
    assert WeightedScore(w, 0.0, 0.0, 0.0) == 0.0 / Sum(w) == 0.0;
  }

  /** Each component counts with its own weight: what it gains, times its part of the
      weights, is what the score gains. */
  lemma {:induction false} ComponentsCount(w: Weights, c: real, s: real, k: real, d: real)
    requires ValidWeights(w)
    ensures var total := w.concentration + w.skipRate + w.credits;
      && WeightedScore(w, c + d, s, k) == WeightedScore(w, c, s, k) + Times(d, w.concentration) / total
      && WeightedScore(w, c, s + d, k) == WeightedScore(w, c, s, k) + Times(d, w.skipRate) / total
      && WeightedScore(w, c, s, k + d) == WeightedScore(w, c, s, k) + Times(d, w.credits) / total
    ensures WeightedScore(w, 0.0, 0.0, 0.0) == 0.0
  {
    TimesAdd(c, d, w.concentration);
    TimesAdd(s, d, w.skipRate);
    TimesAdd(k, d, w.credits);
    var total := Sum(w);
    QuotientAdds(Weighted(w, c, s, k), Times(d, w.concentration), total);
    QuotientAdds(Weighted(w, c, s, k), Times(d, w.skipRate), total);
    QuotientAdds(Weighted(w, c, s, k), Times(d, w.credits), total);
    assert Times(0.0, w.concentration) == 0.0 && Times(0.0, w.skipRate) == 0.0 && Times(0.0, w.credits) == 0.0;
    QuotientAdds(0.0, 0.0, total);
  }

  lemma {:induction false} QuotientAdds(x: real, y: real, total: real)
    requires total != 0.0
    ensures (x + y) / total == x / total + y / total
    ensures 0.0 / total == 0.0
  {
  }

  /* The score of every validator. */

  datatype Metrics = Metrics(concentration: real, skipRate: real, credits: real)

  function Spread(m: Metrics): real { 1.0 - m.concentration }

  function Production(m: Metrics): real { 1.0 - m.skipRate }

  function Credits(m: Metrics): real { m.credits }

  /** The scores of all validators; none when a component is the same for all of them. */
  method ScoreAll(metrics: seq<Metrics>, w: Weights) returns (scores: Option<seq<real>>)
    requires ValidWeights(w)
    ensures scores.Some? <==> Varies(metrics)
    ensures scores.Some? ==> |scores.value| == |metrics|
    ensures scores.Some? ==> Weighs(metrics, w, scores.value) && ScoresOf(metrics, w, scores.value)
  {
    var spread := Normalize(Map(Spread, metrics));
    var production := Normalize(Map(Production, metrics));
    var credits := Normalize(Map(Credits, metrics));
    NormalizeVaries(metrics);
    if spread.None? || production.None? || credits.None? {
      return None;
    }
    var result := Combine(w, spread.value, production.value, credits.value);
    ScoredAll(metrics, w, result);
    scores := Some(result);
  }

  /** Weighs the components of one validator after the other. */
  method Combine(w: Weights, spread: seq<real>, production: seq<real>, credits: seq<real>) returns (result: seq<real>)
    requires ValidWeights(w) && |spread| == |production| == |credits|
    ensures |result| == |spread|
    ensures forall i :: 0 <= i < |result| ==> result[i] == ScoreAt(w, spread, production, credits, i)
  {
    result := [];
    for i := 0 to |spread|
      invariant |result| == i
      invariant forall j :: 0 <= j < i ==> result[j] == ScoreAt(w, spread, production, credits, j)
    {
      result := result + [ScoreAt(w, spread, production, credits, i)];
    }
  }

  function ScoreAt(w: Weights, spread: seq<real>, production: seq<real>, credits: seq<real>, i: nat): real
    requires ValidWeights(w) && i < |spread| && i < |production| && i < |credits|
  {
    WeightedScore(w, spread[i], production[i], credits[i])
  }

  lemma {:induction false} ScoredAll(metrics: seq<Metrics>, w: Weights, result: seq<real>)
    requires ValidWeights(w) && |result| == |metrics|
    requires Normalize(Map(Spread, metrics)).Some? && Normalize(Map(Production, metrics)).Some?
    requires Normalize(Map(Credits, metrics)).Some?
    requires forall j :: 0 <= j < |metrics| ==> result[j] == ScoreAt(w, Normalize(Map(Spread, metrics)).value,
      Normalize(Map(Production, metrics)).value, Normalize(Map(Credits, metrics)).value, j)
    ensures ScoresOf(metrics, w, result)
  {
    forall i, j | 0 <= i < |metrics| && 0 <= j < |metrics|
      ensures 0.0 <= result[i] <= 1.0 && (AtLeastAsGood(metrics[i], metrics[j]) ==> result[j] <= result[i])
    {
      ScoresCompare(metrics, w, i, j);
    }
  }

  /** Every component differs between some two validators, if there are any. */
  ghost predicate Varies(metrics: seq<Metrics>) {
    metrics != [] ==>
      && (exists m, n :: m in metrics && n in metrics && m.concentration != n.concentration)
      && (exists m, n :: m in metrics && n in metrics && m.skipRate != n.skipRate)
      && (exists m, n :: m in metrics && n in metrics && m.credits != n.credits)
  }

  /** Less concentrated, fewer slots skipped, more credits. */
  predicate AtLeastAsGood(m: Metrics, n: Metrics) {
    m.concentration <= n.concentration && m.skipRate <= n.skipRate && n.credits <= m.credits
  }

  /** Every validator has the weighted score of its scaled components. */
  ghost predicate Weighs(metrics: seq<Metrics>, w: Weights, scores: seq<real>)
    requires ValidWeights(w) && |scores| == |metrics|
  {
    var spread, production, credits :=
      Normalize(Map(Spread, metrics)), Normalize(Map(Production, metrics)), Normalize(Map(Credits, metrics));
    && spread.Some? && production.Some? && credits.Some?
    && forall i :: 0 <= i < |metrics| ==>
      scores[i] == WeightedScore(w, spread.value[i], production.value[i], credits.value[i])
  }

  /** Scores lie between 0 and 1, and who is at least as good scores at least as much. */
  ghost predicate ScoresOf(metrics: seq<Metrics>, w: Weights, scores: seq<real>)
    requires |scores| == |metrics|
  {
    forall i, j :: 0 <= i < |metrics| && 0 <= j < |metrics| ==>
      0.0 <= scores[i] <= 1.0 && (AtLeastAsGood(metrics[i], metrics[j]) ==> scores[j] <= scores[i])
  }

  lemma {:induction false} NormalizeSome(column: seq<real>)
    ensures Normalize(column).Some? <==> column == [] || TwoValues(column)
  {
    if column != [] {
      if Lowest(column) != Highest(column) {
        assert Lowest(column) in column && Highest(column) in column;
      }
    }
  }

  ghost predicate TwoValues(column: seq<real>) { exists x, y :: x in column && y in column && x != y }

  ghost predicate TwoApart(metrics: seq<Metrics>, f: Metrics -> real) {
    exists m, n :: m in metrics && n in metrics && f(m) != f(n)
  }

  lemma {:induction false} MapVaries(metrics: seq<Metrics>, f: Metrics -> real)
    ensures TwoValues(Map(f, metrics)) <==> TwoApart(metrics, f)
  {
    var column := Map(f, metrics);
    if TwoValues(column) {
      var x, y :| x in column && y in column && x != y;
      var i :| 0 <= i < |column| && column[i] == x;
      var j :| 0 <= j < |column| && column[j] == y;
      assert metrics[i] in metrics && metrics[j] in metrics && f(metrics[i]) != f(metrics[j]);
    }
    if TwoApart(metrics, f) {
      var m, n :| m in metrics && n in metrics && f(m) != f(n);
      var i :| 0 <= i < |metrics| && metrics[i] == m;
      var j :| 0 <= j < |metrics| && metrics[j] == n;
      assert column[i] in column && column[j] in column && column[i] != column[j];
    }
  }

  lemma {:induction false} ComponentVaries(metrics: seq<Metrics>, f: Metrics -> real)
    ensures Normalize(Map(f, metrics)).Some? <==> metrics == [] || TwoApart(metrics, f)
  {
    NormalizeSome(Map(f, metrics));
    MapVaries(metrics, f);
  }

  lemma {:induction false} SpreadApart(metrics: seq<Metrics>)
    ensures TwoApart(metrics, Spread) <==>
      exists m, n :: m in metrics && n in metrics && m.concentration != n.concentration
  {
  }

  lemma {:induction false} ProductionApart(metrics: seq<Metrics>)
    ensures TwoApart(metrics, Production) <==>
      exists m, n :: m in metrics && n in metrics && m.skipRate != n.skipRate
  {
  }

  lemma {:induction false} CreditsApart(metrics: seq<Metrics>)
    ensures TwoApart(metrics, Credits) <==> exists m, n :: m in metrics && n in metrics && m.credits != n.credits
  {
  }

  lemma {:induction false} NormalizeVaries(metrics: seq<Metrics>)
    ensures Varies(metrics) <==>
      Normalize(Map(Spread, metrics)).Some? && Normalize(Map(Production, metrics)).Some?
      && Normalize(Map(Credits, metrics)).Some?
  {
    ComponentVaries(metrics, Spread);
    ComponentVaries(metrics, Production);
    ComponentVaries(metrics, Credits);
    SpreadApart(metrics);
    ProductionApart(metrics);
    CreditsApart(metrics);
  }

  lemma {:induction false} ScoresCompare(metrics: seq<Metrics>, w: Weights, i: nat, j: nat)
    requires ValidWeights(w) && i < |metrics| && j < |metrics|
    requires Normalize(Map(Spread, metrics)).Some? && Normalize(Map(Production, metrics)).Some?
    requires Normalize(Map(Credits, metrics)).Some?
    ensures var spread, production, credits := Normalize(Map(Spread, metrics)).value,
        Normalize(Map(Production, metrics)).value, Normalize(Map(Credits, metrics)).value;
      var a, b := ScoreAt(w, spread, production, credits, i), ScoreAt(w, spread, production, credits, j);
      0.0 <= a <= 1.0 && (AtLeastAsGood(metrics[i], metrics[j]) ==> b <= a)
  {
    var spread, production, credits := Normalize(Map(Spread, metrics)).value,
      Normalize(Map(Production, metrics)).value, Normalize(Map(Credits, metrics)).value;
    NormalizeKeepsOrder(Map(Spread, metrics), j, i);
    NormalizeKeepsOrder(Map(Spread, metrics), i, j);
    NormalizeKeepsOrder(Map(Production, metrics), j, i);
    NormalizeKeepsOrder(Map(Production, metrics), i, j);
    NormalizeKeepsOrder(Map(Credits, metrics), j, i);
    NormalizeKeepsOrder(Map(Credits, metrics), i, j);
    ScoreInRange(w, spread[i], production[i], credits[i]);
    if AtLeastAsGood(metrics[i], metrics[j]) {
      ScoreMonotone(w, spread[j], production[j], credits[j], spread[i], production[i], credits[i]);
    }
  }
}
