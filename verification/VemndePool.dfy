/** The veMNDE vote pool of the scoring script: votes are capped per validator and
    the truncated votes are poured back over the validators below the cap, one
    validator at a time, each taking its share of what is left. */
module VemndePool {
  import opened Products
  import opened Rounding
  import opened Sequences

  datatype Voter = Voter(account: string, votes: real, eligible: bool)

  datatype Ballot = Ballot(account: string, validVotes: real, power: real)

  function PowerOf(b: Ballot): real { b.power }

  predicate MorePower(a: Ballot, b: Ballot) { a.power >= b.power }

  function Min(x: real, y: real): real { if x <= y then x else y }

  /* One pass of the redistribution. */

  /** The weights that still count when validator v is processed. */
  function MovingWeights(power: seq<real>, v: nat): (w: seq<real>)
    ensures |w| == |power|
  {
    seq(|power|, i requires 0 <= i < |power| => if i >= v then power[i] else 0.0)
  }

  /** The part of the overflow that a weight among some weights is due. */
  function Share(overflow: real, weight: real, weights: real): real
    requires weights != 0.0
  {
    overflow * weight / weights
  }

  function Gain(power: seq<real>, v: nat, overflow: real, cap: real, round: real -> real): real
    requires v < |power| && SumReal(power[v..]) != 0.0
  {
    Min(round(Share(overflow, power[v], SumReal(power[v..]))), cap - power[v])
  }

  /** The powers and the overflow once the validators from v on were processed. */
  function Pour(power: seq<real>, v: nat, overflow: real, cap: real, round: real -> real): (r: (seq<real>, real))
    requires v <= |power|
    ensures |r.0| == |power|
    decreases |power| - v
  {
    if v == |power| || SumReal(power[v..]) == 0.0 then (power, overflow)
    else
      var gain := Gain(power, v, overflow, cap, round);
      Pour(power[v := power[v] + gain], v + 1, overflow - gain, cap, round)
  }

  lemma {:induction false} MovingWeightsSum(power: seq<real>, v: nat)
    requires v <= |power|
    ensures SumReal(MovingWeights(power, v)) == SumReal(power[v..])
    decreases v
  {
    if v == 0 {
      assert MovingWeights(power, 0) == power == power[0..];
    } else {
      var w, t := MovingWeights(power, v), MovingWeights(power[1..], v - 1);
      assert w == [0.0] + t;
      MovingWeightsSum(power[1..], v - 1);
      assert power[1..][v - 1..] == power[v..];
    }
  }

  ghost predicate Within(power: seq<real>, cap: real) {
    forall i :: 0 <= i < |power| ==> 0.0 <= power[i] <= cap
  }

  ghost predicate Fixed(values: seq<real>, round: real -> real) {
    forall i :: 0 <= i < |values| ==> OnGrid(round, values[i])
  }

  lemma {:induction false} SumUpdate(s: seq<real>, i: nat, x: real)
    requires i < |s|
    ensures SumReal(s[i := x]) == SumReal(s) - s[i] + x
  {
    if i > 0 {
      SumUpdate(s[1..], i - 1, x);
      assert s[i := x][1..] == s[1..][i - 1 := x];
    } else {
      assert s[i := x][1..] == s[1..];
    }
  }

  lemma {:induction false} DropFirst(s: seq<real>, v: nat)
    requires v < |s|
    ensures s[v..] == [s[v]] + s[v + 1..] && SumReal(s[v..]) == s[v] + SumReal(s[v + 1..])
  {
  }

  /** A share of the overflow is at most all of it and never negative. */
  lemma {:induction false} ShareBounds(overflow: real, weight: real, weights: real)
    requires 0.0 <= overflow && 0.0 <= weight <= weights && 0.0 < weights
    ensures 0.0 <= Share(overflow, weight, weights) <= overflow
    ensures weight == 0.0 ==> Share(overflow, weight, weights) == 0.0
    ensures weight == weights ==> Share(overflow, weight, weights) == overflow
  {
    var q := weight / weights;
    assert 0.0 <= q <= 1.0;
    assert Share(overflow, weight, weights) == overflow * q;
  }

  /** Rounding a part of the overflow and stopping it at the room below the cap
      stays on the grid of rounded values. */
  lemma {:induction false} RoundedGain(overflow: real, share: real, held: real, cap: real, round: real -> real)
    requires IsRounding(round) && 0.0 <= share <= overflow && held <= cap
    requires OnGrid(round, overflow) && OnGrid(round, cap) && OnGrid(round, held)
    ensures var g := Min(round(share), cap - held);
      0.0 <= g <= overflow && OnGrid(round, overflow - g) && OnGrid(round, held + g)
    ensures share == 0.0 ==> Min(round(share), cap - held) == 0.0
  {
    var g := Min(round(share), cap - held);
    assert DifferenceOnGrid(round, cap, cap) && DifferenceOnGrid(round, cap, held);
    assert OnGrid(round, round(share)) && OnGrid(round, g);
    assert DifferenceOnGrid(round, 0.0, g) && DifferenceOnGrid(round, overflow, g);
    assert DifferenceOnGrid(round, held, 0.0 - g);
    assert Monotone(round, 0.0, share) && Monotone(round, share, overflow);
  }

  lemma {:induction false} GainBounds(power: seq<real>, v: nat, overflow: real, cap: real, round: real -> real)
    requires IsRounding(round) && v < |power| && Within(power, cap) && SumReal(power[v..]) != 0.0
    requires Fixed(power, round) && OnGrid(round, overflow) && OnGrid(round, cap) && 0.0 <= overflow
    ensures var g := Gain(power, v, overflow, cap, round);
      && 0.0 <= g <= overflow && g <= cap - power[v]
      && OnGrid(round, overflow - g) && OnGrid(round, power[v] + g)
      && (power[v] == 0.0 ==> g == 0.0)
  {
    var s := power[v..];
    SumNonNegative(s);
    assert s[0] == power[v];
    ShareBounds(overflow, power[v], SumReal(s));
    RoundedGain(overflow, Share(overflow, power[v], SumReal(s)), power[v], cap, round);
  }

  /** The state a pass works on: powers between nothing and the cap, an overflow
      that is not negative, everything on the grid of rounded values. */
  ghost predicate PoolState(power: seq<real>, overflow: real, cap: real, round: real -> real) {
    Within(power, cap) && Fixed(power, round) && OnGrid(round, overflow) && OnGrid(round, cap) && 0.0 <= overflow
  }

  /** No step touches a validator that was already processed. */
  lemma {:induction false} PourFrame(power: seq<real>, v: nat, overflow: real, cap: real, round: real -> real)
    requires v <= |power|
    ensures forall i :: 0 <= i < v ==> Pour(power, v, overflow, cap, round).0[i] == power[i]
    decreases |power| - v
  {
    if v < |power| && SumReal(power[v..]) != 0.0 {
      var gain := Gain(power, v, overflow, cap, round);
      PourFrame(power[v := power[v] + gain], v + 1, overflow - gain, cap, round);
    }
  }

  /** One step, as far as the later ones are concerned. */
  lemma {:induction false} PourStep(
      power: seq<real>, v: nat, overflow: real, cap: real, round: real -> real) returns (g: real, next: seq<real>)
    requires IsRounding(round) && v < |power| && PoolState(power, overflow, cap, round)
    requires SumReal(power[v..]) != 0.0
    ensures g == Gain(power, v, overflow, cap, round) && next == power[v := power[v] + g]
    ensures 0.0 <= g && (power[v] == 0.0 ==> g == 0.0)
    ensures PoolState(next, overflow - g, cap, round)
    ensures SumReal(next) + (overflow - g) == SumReal(power) + overflow
    ensures Pour(power, v, overflow, cap, round) == Pour(next, v + 1, overflow - g, cap, round)
  {
    g := Gain(power, v, overflow, cap, round);
    next := power[v := power[v] + g];
    GainBounds(power, v, overflow, cap, round);
    SumUpdate(power, v, power[v] + g);
  }

  /** Whatever the rounding, pouring conserves votes, keeps every power between
      what it was and the cap, gives nothing to a validator without power, and
      never overdraws the overflow. */
  lemma {:induction false} PourKeeps(power: seq<real>, v: nat, overflow: real, cap: real, round: real -> real)
    requires IsRounding(round) && v <= |power| && PoolState(power, overflow, cap, round)
    ensures var (p, o) := Pour(power, v, overflow, cap, round);
      && SumReal(p) + o == SumReal(power) + overflow
      && PoolState(p, o, cap, round)
      && (forall i :: 0 <= i < |p| ==> power[i] <= p[i])
      && (forall i :: 0 <= i < |p| && power[i] == 0.0 ==> p[i] == 0.0)
    decreases |power| - v
  {
    if v < |power| && SumReal(power[v..]) != 0.0 {
      var g, next := PourStep(power, v, overflow, cap, round);
      PourKeeps(next, v + 1, overflow - g, cap, round);
    }
  }

  /** The last validator with power takes all that is left, so if anything
      remains after it, it was stopped by the cap. */
  lemma {:induction false} LastPositiveAtCap(
      power: seq<real>, v: nat, overflow: real, cap: real, round: real -> real, m: nat)
    requires IsRounding(round) && v <= m < |power| && PoolState(power, overflow, cap, round)
    requires 0.0 < power[m] && forall i :: m < i < |power| ==> power[i] == 0.0
    ensures var (p, o) := Pour(power, v, overflow, cap, round); 0.0 < o ==> p[m] == cap
    decreases |power| - v
  {
    SumNonNegative(power[v..]);
    assert power[v..][m - v] == power[m];
    var g, next := PourStep(power, v, overflow, cap, round);
    if v < m {
      LastPositiveAtCap(next, v + 1, overflow - g, cap, round, m);
    } else {
      LastTakesAll(power, v, overflow, cap, round);
      PourFrame(next, v + 1, overflow - g, cap, round);
      PourKeeps(next, v + 1, overflow - g, cap, round);
      ZerosSum(next[v + 1..]);
    }
  }

  lemma {:induction false} LastTakesAll(power: seq<real>, v: nat, overflow: real, cap: real, round: real -> real)
    requires v < |power| && 0.0 < power[v] && 0.0 <= overflow && OnGrid(round, overflow)
    requires forall i :: v < i < |power| ==> power[i] == 0.0
    ensures SumReal(power[v..]) == power[v]
    ensures Gain(power, v, overflow, cap, round) == Min(overflow, cap - power[v])
  {
    DropFirst(power, v);
    ZerosSum(power[v + 1..]);
    ShareBounds(overflow, power[v], SumReal(power[v..]));
  }

  lemma {:induction false} ZerosSum(s: seq<real>)
    requires forall i :: 0 <= i < |s| ==> s[i] == 0.0
    ensures SumReal(s) == 0.0
  {
    if s != [] {
      ZerosSum(s[1..]);
    }
  }

  /* Without rounding, pouring is water-filling. */

  ghost predicate Descending(power: seq<real>) { forall i, j :: 0 <= i < j < |power| ==> power[j] <= power[i] }

  lemma {:induction false} ProportionalShare(factor: real, weight: real, weights: real)
    requires weights != 0.0
    ensures Share(Times(factor, weights) - weights, weight, weights) == Times(factor, weight) - weight
  {
    assert (factor * weights - weights) * weight == (factor * weight - weight) * weights;
  }

  lemma {:induction false} UncappedStep(
      power: seq<real>, v: nat, overflow: real, cap: real, round: real -> real, factor: real)
    requires Exact(round) && v < |power| && SumReal(power[v..]) != 0.0
    requires overflow == Times(factor, SumReal(power[v..])) - SumReal(power[v..])
    requires Times(factor, power[v]) <= cap
    ensures var g := Gain(power, v, overflow, cap, round);
      && g == Times(factor, power[v]) - power[v]
      && overflow - g == Times(factor, SumReal(power[v + 1..])) - SumReal(power[v + 1..])
  {
    ProportionalShare(factor, power[v], SumReal(power[v..]));
    assert OnGrid(round, Share(overflow, power[v], SumReal(power[v..])));
    DropFirst(power, v);
    var rest := SumReal(power[v + 1..]);
    assert factor * (power[v] + rest) == factor * power[v] + factor * rest;
  }

  /** While nobody reaches the cap, everybody grows by the same factor and
      nothing is left. */
  lemma {:induction false} PourUncapped(
      power: seq<real>, v: nat, overflow: real, cap: real, round: real -> real, factor: real)
    requires Exact(round) && v <= |power|
    requires overflow == Times(factor, SumReal(power[v..])) - SumReal(power[v..])
    requires forall i :: v <= i < |power| ==> 0.0 <= power[i] && Times(factor, power[i]) <= cap
    ensures var (p, o) := Pour(power, v, overflow, cap, round);
      o == 0.0 && forall i :: v <= i < |power| ==> p[i] == Times(factor, power[i])
    decreases |power| - v
  {
    if v < |power| && SumReal(power[v..]) != 0.0 {
      UncappedStep(power, v, overflow, cap, round, factor);
      var g := Gain(power, v, overflow, cap, round);
      var next := power[v := power[v] + g];
      assert next[v + 1..] == power[v + 1..];
      PourUncapped(next, v + 1, overflow - g, cap, round, factor);
      PourFrame(next, v + 1, overflow - g, cap, round);
    } else {
      SumNonNegative(power[v..]);
      ZeroSumZeros(power, v);
    }
  }

  /* With rounding nobody is far from the common factor. */

  ghost predicate Near(p: seq<real>, power: seq<real>, v: nat, factor: real)
    requires |p| == |power|
  {
    forall i :: v <= i < |power| ==> -Drift(i, v) <= p[i] - Times(factor, power[i]) <= Drift(i, v)
  }

  /** One half for each validator from v to i. */
  function Drift(i: int, v: int): real { 0.5 * (i - v + 1) as real }

  /** Nobody reaches the cap, rounding included. */
  ghost predicate Loose(power: seq<real>, v: nat, factor: real, cap: real) {
    forall i :: v <= i < |power| ==> Times(factor, power[i]) + Drift(i, v) <= cap
  }

  lemma {:induction false} NearStep(
      power: seq<real>, v: nat, overflow: real, cap: real, round: real -> real, factor: real)
    returns (g: real, next: real)
    requires Nearest(round) && v < |power| && SumReal(power[v..]) != 0.0 && SumReal(power[v + 1..]) != 0.0
    requires forall i :: v <= i < |power| ==> 0.0 <= power[i]
    requires overflow == Times(factor, SumReal(power[v..])) - SumReal(power[v..])
    requires Loose(power, v, factor, cap)
    ensures g == Gain(power, v, overflow, cap, round) && -0.5 <= power[v] + g - Times(factor, power[v]) <= 0.5
    ensures overflow - g == Times(next, SumReal(power[v + 1..])) - SumReal(power[v + 1..])
    ensures forall i :: v < i < |power| ==> -0.5 <= Times(next, power[i]) - Times(factor, power[i]) <= 0.5
  {
    var w, rest := power[v], SumReal(power[v + 1..]);
    g := LooseGain(power, v, overflow, cap, round, factor);
    var e := w + g - Times(factor, w);
    next := factor - e / rest;
    DropFirst(power, v);
    SumNonNegative(power[v + 1..]);
    TimesSum(factor, w, rest);
    MovedFactor(factor, e, rest, rest);
    assert e / rest * rest == e;
    forall i | v < i < |power| ensures -0.5 <= Times(next, power[i]) - Times(factor, power[i]) <= 0.5 {
      assert power[v + 1..][i - v - 1] == power[i];
      MovedFactor(factor, e, rest, power[i]);
    }
  }

  lemma {:induction false} MovedFactor(factor: real, e: real, rest: real, x: real)
    requires 0.0 <= x <= rest && 0.0 < rest && -0.5 <= e <= 0.5
    ensures Times(factor - e / rest, x) == Times(factor, x) - Times(e / rest, x)
    ensures -0.5 <= Times(e / rest, x) <= 0.5
    ensures Times(e / rest, rest) == e
  {
    var q := x / rest;
    assert 0.0 <= q <= 1.0;
    PartOfHalf(e, q);
    assert e / rest * x == e * q;
  }

  lemma {:induction false} PartOfHalf(e: real, q: real)
    requires -0.5 <= e <= 0.5 && 0.0 <= q <= 1.0
    ensures -0.5 <= e * q <= 0.5
  {
    Scale(e, 0.5, q);
    Scale(-0.5, e, q);
  }

  lemma {:induction false} LooseGain(
      power: seq<real>, v: nat, overflow: real, cap: real, round: real -> real, factor: real) returns (g: real)
    requires Nearest(round) && v < |power| && SumReal(power[v..]) != 0.0
    requires overflow == Times(factor, SumReal(power[v..])) - SumReal(power[v..])
    requires Loose(power, v, factor, cap)
    ensures g == Gain(power, v, overflow, cap, round) && -0.5 <= power[v] + g - Times(factor, power[v]) <= 0.5
  {
    ProportionalShare(factor, power[v], SumReal(power[v..]));
    assert Drift(v, v) == 0.5;
    g := Gain(power, v, overflow, cap, round);
  }

  /** While nobody reaches the cap, rounding to nearest takes nobody further from the
      common factor than one half for each validator processed so far. */
  lemma {:induction false} PourNearLevel(
      power: seq<real>, v: nat, overflow: real, cap: real, round: real -> real, factor: real)
    requires Nearest(round) && v <= |power|
    requires overflow == Times(factor, SumReal(power[v..])) - SumReal(power[v..])
    requires forall i :: v <= i < |power| ==> 0.0 <= power[i]
    requires Loose(power, v, factor, cap)
    ensures Near(Pour(power, v, overflow, cap, round).0, power, v, factor)
    decreases |power| - v
  {
    if v < |power| && SumReal(power[v..]) != 0.0 {
      var g := LooseGain(power, v, overflow, cap, round, factor);
      var next := power[v := power[v] + g];
      assert next[v + 1..] == power[v + 1..];
      PourFrame(next, v + 1, overflow - g, cap, round);
      if SumReal(power[v + 1..]) != 0.0 {
        var moved;
        g, moved := NearStep(power, v, overflow, cap, round, factor);
        NearNext(power, v, next, factor, moved, cap);
        PourNearLevel(next, v + 1, overflow - g, cap, round, moved);
        NearBefore(Pour(next, v + 1, overflow - g, cap, round).0, power, v, next, factor, moved);
      } else {
        ZeroSumZeros(power, v + 1);
        assert Times(factor, 0.0) == 0.0;
      }
    } else {
      ZeroSumZeros(power, v);
      assert Times(factor, 0.0) == 0.0;
    }
  }

  lemma {:induction false} NearNext(power: seq<real>, v: nat, next: seq<real>, factor: real, moved: real, cap: real)
    requires v < |power| == |next| && Loose(power, v, factor, cap)
    requires forall i :: v < i < |power| ==>
      next[i] == power[i] && Times(moved, power[i]) - Times(factor, power[i]) <= 0.5
    ensures Loose(next, v + 1, moved, cap)
  {
    forall i | v + 1 <= i < |next| ensures Times(moved, next[i]) + Drift(i, v + 1) <= cap {
      assert Times(factor, power[i]) + Drift(i, v) <= cap;
    }
  }

  lemma {:induction false} NearBefore(
      p: seq<real>, power: seq<real>, v: nat, next: seq<real>, factor: real, moved: real)
    requires v < |power| == |next| == |p| && Near(p, next, v + 1, moved)
    requires -0.5 <= p[v] - Times(factor, power[v]) <= 0.5
    requires forall i :: v < i < |power| ==>
      next[i] == power[i] && -0.5 <= Times(moved, power[i]) - Times(factor, power[i]) <= 0.5
    ensures Near(p, power, v, factor)
  {
    forall i | v <= i < |power| ensures -Drift(i, v) <= p[i] - Times(factor, power[i]) <= Drift(i, v) {
      if v < i {
        assert -Drift(i, v + 1) <= p[i] - Times(moved, next[i]) <= Drift(i, v + 1);
      }
    }
  }

  /** The factor that would spend the whole overflow if nobody reached the cap. */
  function Level(overflow: real, weights: real): real
    requires weights != 0.0
  {
    (weights + overflow) / weights
  }

  lemma {:induction false} LevelSpends(overflow: real, weight: real, weights: real)
    requires 0.0 <= overflow && 0.0 <= weight && 0.0 < weights
    ensures var f := Level(overflow, weights);
      && 1.0 <= f && Times(f, weights) == weights + overflow
      && Share(overflow, weight, weights) == Times(f, weight) - weight
  {
    var f := Level(overflow, weights);
    assert f * weights == weights + overflow;
    ProportionalShare(f, weight, weights);
  }

  /** A capped validator takes less than its share, so the factor for the
      validators after it does not go down. */
  lemma {:induction false} LevelRises(overflow: real, gain: real, weight: real, weights: real, factor: real)
    requires 0.0 <= overflow && 0.0 <= weight < weights
    requires gain <= Share(overflow, weight, weights)
    requires (weights - weight) + (overflow - gain) <= Times(factor, weights - weight)
    ensures Level(overflow, weights) <= factor
  {
    var f, rest := Level(overflow, weights), weights - weight;
    LevelSpends(overflow, weight, weights);
    assert f * weights == f * rest + f * weight;
    CancelScale(f, factor, rest);
  }

  lemma {:induction false} CancelScale(low: real, high: real, x: real)
    requires 0.0 < x && low * x <= high * x
    ensures low <= high
  {
    var y := 1.0 / x;
    Scale(low * x, high * x, y);
    assert low * x * y == low * (x * y) && high * x * y == high * (x * y);
  }

  lemma {:induction false} Scale(low: real, high: real, x: real)
    requires low <= high && 0.0 <= x
    ensures Times(low, x) <= Times(high, x)
  {
  }

  lemma {:induction false} ZeroSumZeros(power: seq<real>, v: nat)
    requires v <= |power| && SumReal(power[v..]) == 0.0
    requires forall i :: v <= i < |power| ==> 0.0 <= power[i]
    ensures forall i :: v <= i < |power| ==> power[i] == 0.0
  {
    SumNonNegative(power[v..]);
    forall i | v <= i < |power| ensures power[i] == 0.0 {
      assert power[v..][i - v] == power[i];
    }
  }

  /** What filling to one level means for the validators from v on: each grows by
      the same factor unless the cap stops it first, and if anything is left over,
      the cap stopped everybody. */
  ghost predicate Filled(power: seq<real>, v: nat, p: seq<real>, o: real, cap: real, factor: real)
    requires |p| == |power|
  {
    && 1.0 <= factor
    && (forall i :: v <= i < |power| ==> p[i] == Min(cap, Times(factor, power[i])))
    && (o != 0.0 ==> forall i :: v <= i < |power| && 0.0 < power[i] ==> p[i] == cap)
  }

  lemma {:induction false} WaterFill(
      power: seq<real>, v: nat, overflow: real, cap: real, round: real -> real) returns (factor: real)
    requires Exact(round) && v < |power| && PoolState(power, overflow, cap, round) && SumReal(power[v..]) != 0.0
    requires forall i, j :: v <= i < j < |power| ==> power[j] <= power[i]
    ensures SumReal(power[v..]) + overflow <= Times(factor, SumReal(power[v..]))
    ensures var (p, o) := Pour(power, v, overflow, cap, round); Filled(power, v, p, o, cap, factor)
    decreases |power| - v, 1
  {
    var s := SumReal(power[v..]);
    SumNonNegative(power[v..]);
    assert power[v..][0] == power[v];
    factor := Level(overflow, s);
    LevelSpends(overflow, power[v], s);
    if Times(factor, power[v]) <= cap {
      forall i | v <= i < |power| ensures Times(factor, power[i]) <= cap {
        Scale(power[i], power[v], factor);
      }
      PourUncapped(power, v, overflow, cap, round, factor);
    } else {
      factor := WaterFillCapped(power, v, overflow, cap, round);
    }
  }

  ghost predicate OverCap(weight: real, weights: real, overflow: real, cap: real) {
    0.0 < weights && 0.0 <= overflow && cap < Times(Level(overflow, weights), weight)
  }

  lemma {:induction false} WaterFillCapped(
      power: seq<real>, v: nat, overflow: real, cap: real, round: real -> real) returns (factor: real)
    requires Exact(round) && v < |power| && PoolState(power, overflow, cap, round)
    requires forall i, j :: v <= i < j < |power| ==> power[j] <= power[i]
    requires OverCap(power[v], SumReal(power[v..]), overflow, cap)
    ensures SumReal(power[v..]) + overflow <= Times(factor, SumReal(power[v..]))
    ensures var (p, o) := Pour(power, v, overflow, cap, round); Filled(power, v, p, o, cap, factor)
    decreases |power| - v, 0
  {
    var s, next, rest := SumReal(power[v..]), power[v := cap], overflow - (cap - power[v]);
    CappedStep(power, v, overflow, cap, round);
    if SumReal(next[v + 1..]) == 0.0 {
      factor := ZeroFactor(power[v], s, overflow, cap);
      FilledZeros(next, v + 1, rest, cap, round, factor);
    } else {
      factor := WaterFill(next, v + 1, rest, cap, round);
      CappedFactor(overflow, cap - power[v], power[v], s, cap, factor);
    }
    FilledFromRest(power, v, next, rest, cap, round, factor);
  }

  lemma {:induction false} CappedStep(power: seq<real>, v: nat, overflow: real, cap: real, round: real -> real)
    requires Exact(round) && v < |power| && PoolState(power, overflow, cap, round)
    requires OverCap(power[v], SumReal(power[v..]), overflow, cap)
    ensures var next, rest := power[v := cap], overflow - (cap - power[v]);
      && Pour(power, v, overflow, cap, round) == Pour(next, v + 1, rest, cap, round)
      && PoolState(next, rest, cap, round)
      && SumReal(next[v + 1..]) == SumReal(power[v..]) - power[v] >= 0.0
    ensures cap - power[v] <= Share(overflow, power[v], SumReal(power[v..]))
  {
    ExactIsRounding(round);
    var s := SumReal(power[v..]);
    LevelSpends(overflow, power[v], s);
    assert OnGrid(round, Share(overflow, power[v], s));
    var g, next := PourStep(power, v, overflow, cap, round);
    assert power[v] + (cap - power[v]) == cap;
    DropFirst(power, v);
    assert next[v + 1..] == power[v + 1..];
    SumNonNegative(next[v + 1..]);
  }

  lemma {:induction false} ZeroFactor(weight: real, weights: real, overflow: real, cap: real) returns (factor: real)
    requires 0.0 <= weight && OverCap(weight, weights, overflow, cap)
    ensures 1.0 <= factor && cap < Times(factor, weight) && weights + overflow <= Times(factor, weights)
  {
    factor := Level(overflow, weights);
    LevelSpends(overflow, weight, weights);
  }

  lemma {:induction false} CappedFactor(
      overflow: real, gain: real, weight: real, weights: real, cap: real, factor: real)
    requires 0.0 <= weight < weights && OverCap(weight, weights, overflow, cap)
    requires gain <= Share(overflow, weight, weights)
    requires (weights - weight) + (overflow - gain) <= Times(factor, weights - weight)
    ensures 1.0 <= factor && cap < Times(factor, weight) && weights + overflow <= Times(factor, weights)
  {
    LevelSpends(overflow, weight, weights);
    LevelRises(overflow, gain, weight, weights, factor);
    Scale(Level(overflow, weights), factor, weight);
    Scale(Level(overflow, weights), factor, weights);
  }

  lemma {:induction false} FilledZeros(
      power: seq<real>, v: nat, overflow: real, cap: real, round: real -> real, factor: real)
    requires v <= |power| && Within(power, cap) && 1.0 <= factor && SumReal(power[v..]) == 0.0
    ensures var (p, o) := Pour(power, v, overflow, cap, round); Filled(power, v, p, o, cap, factor)
  {
    ZeroSumZeros(power, v);
    assert Times(factor, 0.0) == 0.0;
  }

  lemma {:induction false} FilledFromRest(
      power: seq<real>, v: nat, next: seq<real>, rest: real, cap: real, round: real -> real, factor: real)
    requires v < |power| && next == power[v := cap] && 1.0 <= factor && cap < Times(factor, power[v])
    requires var (p, o) := Pour(next, v + 1, rest, cap, round); Filled(next, v + 1, p, o, cap, factor)
    ensures var (p, o) := Pour(next, v + 1, rest, cap, round); Filled(power, v, p, o, cap, factor)
  {
    PourFrame(next, v + 1, rest, cap, round);
  }

  /* The pool of one scoring run. */

  function ValidVotes(round: real -> real): Voter -> real {
    (v: Voter) => round(if v.eligible then v.votes else 0.0)
  }

  function TotalVotes(voters: seq<Voter>, round: real -> real): real {
    SumReal(Map(ValidVotes(round), voters))
  }

  function RawCap(votes: real, strategyVotes: real, capShare: real): real {
    (votes + strategyVotes) * capShare
  }

  /** Votes delegated to the strategy itself raise the cap but are not distributed. */
  function PowerCap(voters: seq<Voter>, strategyVotes: real, capShare: real, round: real -> real): real {
    round(RawCap(TotalVotes(voters, round), strategyVotes, capShare))
  }

  function CappedBallot(cap: real, round: real -> real): Voter -> Ballot {
    (v: Voter) => var votes := ValidVotes(round)(v); Ballot(v.account, votes, Min(votes, cap))
  }

  /** The validators with their capped votes, most powerful first. */
  function Frame(voters: seq<Voter>, cap: real, round: real -> real): (frame: seq<Ballot>)
    ensures |frame| == |voters|
  {
    StableSort(Map(CappedBallot(cap, round), voters), MorePower)
  }

  /** The powers before the truncated votes are poured, and those votes. */
  function Truncated(voters: seq<Voter>, cap: real, round: real -> real): (r: (seq<real>, real))
    ensures |r.0| == |voters|
  {
    var power := Map(PowerOf, Frame(voters, cap, round));
    (power, TotalVotes(voters, round) - SumReal(power))
  }

  function Pool(voters: seq<Voter>, cap: real, round: real -> real): (r: (seq<real>, real))
    ensures |r.0| == |voters|
  {
    var (power, overflow) := Truncated(voters, cap, round);
    Pour(power, 0, overflow, cap, round)
  }

  /** Lines 228-258 of the script, from votes to the powers and the overflow. */
  method DistributeVotes(voters: seq<Voter>, strategyVotes: real, capShare: real, round: real -> real)
    returns (frame: seq<Ballot>, overflow: real, cap: real)
    ensures cap == PowerCap(voters, strategyVotes, capShare, round)
    ensures |frame| == |voters|
    ensures forall i :: 0 <= i < |frame| ==> frame[i] == Frame(voters, cap, round)[i].(power := frame[i].power)
    ensures (Map(PowerOf, frame), overflow) == Pool(voters, cap, round)
    ensures CanVote(voters, strategyVotes, capShare, round) ==> CapHolds(frame, voters, strategyVotes, capShare, round)
  {
    var validVotes := Map(ValidVotes(round), voters);
    cap := round(RawCap(SumReal(validVotes), strategyVotes, capShare));
    var capped := Map(CappedBallot(cap, round), voters);
    overflow := SumReal(validVotes) - SumReal(Map(PowerOf, capped));
    frame := StableSort(capped, MorePower);
    SumRealSort(capped, MorePower, PowerOf);

    var power;
    power, overflow := PourOverflow(Map(PowerOf, frame), overflow, cap, round);
    frame := WithPowers(frame, power);
    if CanVote(voters, strategyVotes, capShare, round) {
      PoolCapHolds(voters, strategyVotes, capShare, round, frame);
    }
  }

  /** The votes of the eligible voters, each rounded. */
  function EligibleVotes(voters: seq<Voter>, round: real -> real): real {
    if voters == [] then 0.0
    else (if voters[0].eligible then round(voters[0].votes) else 0.0) + EligibleVotes(voters[1..], round)
  }

  /** The cap before it is rounded: a share of all votes that count, those delegated to
      the strategy included. */
  function Limit(voters: seq<Voter>, strategyVotes: real, capShare: real, round: real -> real): real {
    capShare * (EligibleVotes(voters, round) + strategyVotes)
  }

  predicate Exceeds(v: Voter, limit: real, round: real -> real) { v.eligible && limit + 0.5 < round(v.votes) }

  ghost predicate CanVote(voters: seq<Voter>, strategyVotes: real, capShare: real, round: real -> real) {
    IsRounding(round) && Nearest(round) && NoNegativeVotes(voters) && 0.0 <= strategyVotes && 0.0 <= capShare
  }

  /** No power exceeds the limit by more than one half, and if some voter does, the first
      power is no more than one half below it. */
  ghost predicate CapHolds(
      frame: seq<Ballot>, voters: seq<Voter>, strategyVotes: real, capShare: real, round: real -> real) {
    var limit := Limit(voters, strategyVotes, capShare, round);
    && (forall i :: 0 <= i < |frame| ==> frame[i].power <= limit + 0.5)
    && ((exists i :: 0 <= i < |voters| && Exceeds(voters[i], limit, round)) ==>
          frame != [] && limit - 0.5 <= frame[0].power)
  }

  function WithPowers(frame: seq<Ballot>, power: seq<real>): (r: seq<Ballot>)
    requires |frame| == |power|
    ensures |r| == |frame| && Map(PowerOf, r) == power
    ensures forall i :: 0 <= i < |r| ==> r[i] == frame[i].(power := power[i])
  {
    if frame == [] then []
    else [frame[0].(power := power[0])] + WithPowers(frame[1..], power[1..])
  }

  /** The loop of the script: weigh the validators not yet processed, stop when
      they have no power, otherwise raise the next one. */
  method PourOverflow(initial: seq<real>, truncated: real, cap: real, round: real -> real)
    returns (power: seq<real>, overflow: real)
    ensures (power, overflow) == Pour(initial, 0, truncated, cap, round)
  {
    power, overflow := initial, truncated;
    var v := 0;
    while v < |power|
      invariant v <= |power| == |initial|
      invariant Pour(power, v, overflow, cap, round) == Pour(initial, 0, truncated, cap, round)
    {
      var movingWeights := MovingWeights(power, v);
      MovingWeightsSum(power, v);
      if SumReal(movingWeights) == 0.0 {
        break;
      }
      var increase := round(Share(overflow, movingWeights[v], SumReal(movingWeights)));
      var increaseCapped := Min(increase, cap - movingWeights[v]);
      power := power[v := power[v] + increaseCapped];
      overflow := overflow - increaseCapped;
      v := v + 1;
    }
  }

  lemma {:induction false} SumOnGrid(s: seq<real>, round: real -> real)
    requires IsRounding(round) && Fixed(s, round)
    ensures OnGrid(round, SumReal(s)) && OnGrid(round, 0.0)
  {
    assert OnGrid(round, round(0.0));
    assert DifferenceOnGrid(round, round(0.0), round(0.0));
    if s != [] {
      SumOnGrid(s[1..], round);
      assert OnGrid(round, s[0]);
      assert DifferenceOnGrid(round, 0.0, SumReal(s[1..]));
      assert DifferenceOnGrid(round, s[0], 0.0 - SumReal(s[1..]));
    }
  }

  lemma {:induction false} SumAtMost(a: seq<real>, b: seq<real>)
    requires |a| == |b| && forall i :: 0 <= i < |a| ==> a[i] <= b[i]
    ensures SumReal(a) <= SumReal(b)
  {
    if a != [] {
      SumAtMost(a[1..], b[1..]);
    }
  }

  lemma {:induction false} ValidVotesOnGrid(v: Voter, round: real -> real)
    requires IsRounding(round) && 0.0 <= v.votes
    ensures 0.0 <= ValidVotes(round)(v) && OnGrid(round, ValidVotes(round)(v))
  {
    var x := if v.eligible then v.votes else 0.0;
    SumOnGrid([], round);
    assert OnGrid(round, round(x));
    assert Monotone(round, 0.0, x);
  }

  ghost predicate NoNegativeVotes(voters: seq<Voter>) {
    forall i :: 0 <= i < |voters| ==> 0.0 <= voters[i].votes
  }

  /** The cap of a scoring run is a rounded value that is not negative. */
  lemma {:induction false} PowerCapValid(voters: seq<Voter>, strategyVotes: real, capShare: real, round: real -> real)
    requires IsRounding(round) && NoNegativeVotes(voters) && 0.0 <= strategyVotes && 0.0 <= capShare
    ensures var cap := PowerCap(voters, strategyVotes, capShare, round); 0.0 <= cap && OnGrid(round, cap)
  {
    var votes := Map(ValidVotes(round), voters);
    forall i | 0 <= i < |votes| ensures 0.0 <= votes[i] {
      ValidVotesOnGrid(voters[i], round);
    }
    SumNonNegative(votes);
    SumOnGrid([], round);
    var raw := RawCap(TotalVotes(voters, round), strategyVotes, capShare);
    assert Monotone(round, 0.0, raw) && OnGrid(round, round(raw));
  }

  lemma {:induction false} BallotOrigin(voters: seq<Voter>, cap: real, round: real -> real, i: nat) returns (k: nat)
    requires i < |voters|
    ensures k < |voters| && Frame(voters, cap, round)[i].account == voters[k].account
    ensures Frame(voters, cap, round)[i].power == Min(Map(ValidVotes(round), voters)[k], cap)
  {
    var capped, frame := Map(CappedBallot(cap, round), voters), Frame(voters, cap, round);
    StableSortMember(capped, MorePower, frame[i]);
    k :| 0 <= k < |capped| && capped[k] == frame[i];
  }

  lemma {:induction false} FramePowers(voters: seq<Voter>, cap: real, round: real -> real)
    requires 0.0 <= cap && OnGrid(round, cap)
    requires var votes := Map(ValidVotes(round), voters);
      Fixed(votes, round) && forall i :: 0 <= i < |votes| ==> 0.0 <= votes[i]
    ensures var power := Map(PowerOf, Frame(voters, cap, round));
      Within(power, cap) && Fixed(power, round) && Descending(power)
  {
    var frame := Frame(voters, cap, round);
    var power := Map(PowerOf, frame);
    forall i | 0 <= i < |power| ensures 0.0 <= power[i] <= cap && OnGrid(round, power[i]) {
      var k := BallotOrigin(voters, cap, round, i);
      assert OnGrid(round, Map(ValidVotes(round), voters)[k]);
    }
    assert TotalPreorder(MorePower);
    StableSortSorted(Map(CappedBallot(cap, round), voters), MorePower);
  }

  lemma {:induction false} CappedSum(voters: seq<Voter>, cap: real, round: real -> real)
    ensures 0.0 <= Truncated(voters, cap, round).1
  {
    var votes, capped := Map(ValidVotes(round), voters), Map(CappedBallot(cap, round), voters);
    SumRealSort(capped, MorePower, PowerOf);
    SumAtMost(Map(PowerOf, capped), votes);
  }

  /** Capping leaves a state the redistribution can start from, and takes away
      exactly what it calls overflow. */
  lemma {:induction false} TruncatedIsPoolState(voters: seq<Voter>, cap: real, round: real -> real)
    requires IsRounding(round) && 0.0 <= cap && OnGrid(round, cap) && NoNegativeVotes(voters)
    ensures var (power, overflow) := Truncated(voters, cap, round);
      && PoolState(power, overflow, cap, round) && Descending(power)
  {
    var votes, power := Map(ValidVotes(round), voters), Map(PowerOf, Frame(voters, cap, round));
    forall i | 0 <= i < |votes| ensures 0.0 <= votes[i] && OnGrid(round, votes[i]) {
      ValidVotesOnGrid(voters[i], round);
    }
    FramePowers(voters, cap, round);
    CappedSum(voters, cap, round);
    SumOnGrid(votes, round);
    SumOnGrid(power, round);
    assert DifferenceOnGrid(round, TotalVotes(voters, round), SumReal(power));
  }

  /** Distributed votes and overflow add up to the valid votes, for any rounding;
      no power exceeds the cap, none falls below the capped votes, and nobody
      without valid votes gets power. */
  lemma {:induction false} PoolConserves(voters: seq<Voter>, cap: real, round: real -> real)
    requires IsRounding(round) && 0.0 <= cap && OnGrid(round, cap) && NoNegativeVotes(voters)
    ensures var (before, _) := Truncated(voters, cap, round);
      var (power, overflow) := Pool(voters, cap, round);
      && SumReal(power) + overflow == TotalVotes(voters, round)
      && 0.0 <= overflow
      && (forall i :: 0 <= i < |power| ==> 0.0 <= before[i] <= power[i] <= cap)
      && (forall i :: 0 <= i < |power| && before[i] == 0.0 ==> power[i] == 0.0)
  {
    var (power, overflow) := Truncated(voters, cap, round);
    TruncatedIsPoolState(voters, cap, round);
    PourKeeps(power, 0, overflow, cap, round);
  }

  function PositiveCount(power: seq<real>): nat {
    if power == [] then 0 else (if 0.0 < power[0] then 1 else 0) + PositiveCount(power[1..])
  }

  /** The votes that fit under the cap of the validators with power. */
  function Room(power: seq<real>, cap: real): real {
    if power == [] then 0.0 else (if 0.0 < power[0] then cap else 0.0) + Room(power[1..], cap)
  }

  lemma {:induction false} RoomIsCapPerValidator(power: seq<real>, cap: real)
    ensures Room(power, cap) == Times(cap, PositiveCount(power) as real)
  {
    if power != [] {
      RoomIsCapPerValidator(power[1..], cap);
      var n := PositiveCount(power[1..]) as real;
      assert cap * (1.0 + n) == cap + cap * n;
    }
  }

  lemma {:induction false} RoomBounds(before: seq<real>, power: seq<real>, cap: real)
    requires |before| == |power|
    requires forall i :: 0 <= i < |power| ==> power[i] <= cap && (0.0 < before[i] || power[i] == 0.0)
    ensures SumReal(power) <= Room(before, cap)
    ensures (forall i :: 0 <= i < |power| && 0.0 < before[i] ==> power[i] == cap) ==>
      SumReal(power) == Room(before, cap)
  {
    if before != [] {
      RoomBounds(before[1..], power[1..], cap);
      assert forall i :: 0 <= i < |power[1..]| ==> before[1..][i] == before[i + 1] && power[1..][i] == power[i + 1];
    }
  }

  /* How much is left over does not depend on the rounding. */

  ghost predicate DescendingFrom(power: seq<real>, v: nat) {
    forall i, j :: v <= i < j < |power| ==> power[j] <= power[i]
  }

  lemma {:induction false} SumAtMostRoom(s: seq<real>, top: real)
    requires forall i :: 0 <= i < |s| ==> 0.0 <= s[i] <= top
    ensures SumReal(s) <= Room(s, top)
  {
    if s != [] {
      SumAtMostRoom(s[1..], top);
    }
  }

  lemma {:induction false} FirstHasPower(power: seq<real>, v: nat)
    requires v < |power| && DescendingFrom(power, v) && SumReal(power[v..]) != 0.0
    requires forall i :: v <= i < |power| ==> 0.0 <= power[i]
    ensures 0.0 < power[v] <= SumReal(power[v..])
    ensures 0 < PositiveCount(power[v..])
    ensures SumReal(power[v..]) <= Times(power[v], PositiveCount(power[v..]) as real)
  {
    var s := power[v..];
    SumNonNegative(s);
    if power[v] == 0.0 {
      ZerosSum(s);
    }
    assert s[0] == power[v];
    SumAtMostRoom(s, power[v]);
    RoomIsCapPerValidator(s, power[v]);
  }

  /** The first of descending weights ends, with its share, at or above what every one
      of n would get if all were shared out evenly. */
  lemma {:induction false} ShareReachesAverage(overflow: real, weight: real, weights: real, n: real, level: real)
    requires 0.0 <= overflow && 0.0 < weight <= weights && 0.0 < n && weights <= Times(weight, n)
    requires Times(level, n) <= weights + overflow
    ensures level - weight <= Share(overflow, weight, weights)
  {
    var f := Level(overflow, weights);
    LevelSpends(overflow, weight, weights);
    Scale(weights, Times(weight, n), f);
    assert Times(Times(weight, n), f) == Times(Times(f, weight), n);
    CancelScale(level, Times(f, weight), n);
  }

  lemma {:induction false} FullGain(share: real, held: real, target: real, cap: real, round: real -> real)
    requires IsRounding(round) && OnGrid(round, target) && OnGrid(round, held) && target - held <= share &&
      target <= cap
    ensures target - held <= Min(round(share), cap - held)
  {
    assert DifferenceOnGrid(round, target, held) && Monotone(round, target - held, share);
  }

  lemma {:induction false} RoomSplits(power: seq<real>, v: nat, cap: real)
    requires v < |power| && 0.0 < power[v]
    ensures Room(power[v..], cap) == cap + Room(power[v + 1..], cap)
  {
    DropFirst(power, v);
  }

  lemma {:induction false} NoRoom(s: seq<real>, cap: real)
    requires forall i :: 0 <= i < |s| ==> s[i] == 0.0
    ensures Room(s, cap) == 0.0
  {
    if s != [] {
      NoRoom(s[1..], cap);
    }
  }

  lemma {:induction false} OverfullGain(power: seq<real>, v: nat, overflow: real, cap: real, round: real -> real)
    requires IsRounding(round) && v < |power| && PoolState(power, overflow, cap, round) && DescendingFrom(power, v)
    requires SumReal(power[v..]) != 0.0 && Room(power[v..], cap) < SumReal(power[v..]) + overflow
    ensures Gain(power, v, overflow, cap, round) == cap - power[v] && 0.0 < power[v]
  {
    var s := power[v..];
    FirstHasPower(power, v);
    RoomIsCapPerValidator(s, cap);
    ShareReachesAverage(overflow, power[v], SumReal(s), PositiveCount(s) as real, cap);
    FullGain(Share(overflow, power[v], SumReal(s)), power[v], cap, cap, round);
  }

  lemma {:induction false} OverfullStep(
      power: seq<real>, v: nat, overflow: real, cap: real, round: real -> real) returns (rest: real, next: seq<real>)
    requires IsRounding(round) && v < |power| && PoolState(power, overflow, cap, round) && DescendingFrom(power, v)
    requires SumReal(power[v..]) != 0.0 && Room(power[v..], cap) < SumReal(power[v..]) + overflow
    ensures next == power[v := cap] && PoolState(next, rest, cap, round) && DescendingFrom(next, v + 1)
    ensures SumReal(next[v + 1..]) + rest - Room(next[v + 1..], cap) ==
      SumReal(power[v..]) + overflow - Room(power[v..], cap)
    ensures Pour(power, v, overflow, cap, round) == Pour(next, v + 1, rest, cap, round)
  {
    OverfullGain(power, v, overflow, cap, round);
    var g;
    g, next := PourStep(power, v, overflow, cap, round);
    rest := overflow - g;
    DropFirst(power, v);
    RoomSplits(power, v, cap);
    assert power[v] + (cap - power[v]) == cap;
    assert next[v + 1..] == power[v + 1..];
  }

  /** More votes than fit: whatever the rounding, everybody with power is filled to the
      cap, and the rest is left over. */
  lemma {:induction false} Overfull(power: seq<real>, v: nat, overflow: real, cap: real, round: real -> real)
    requires IsRounding(round) && v <= |power| && PoolState(power, overflow, cap, round) && DescendingFrom(power, v)
    requires Room(power[v..], cap) < SumReal(power[v..]) + overflow
    ensures var (p, o) := Pour(power, v, overflow, cap, round);
      && o == SumReal(power[v..]) + overflow - Room(power[v..], cap)
      && forall i :: v <= i < |power| && 0.0 < power[i] ==> p[i] == cap
    decreases |power| - v
  {
    if v < |power| && SumReal(power[v..]) != 0.0 {
      var rest, next := OverfullStep(power, v, overflow, cap, round);
      Overfull(next, v + 1, rest, cap, round);
      PourFrame(next, v + 1, rest, cap, round);
    } else {
      ZeroSumZeros(power, v);
      NoRoom(power[v..], cap);
    }
  }

  lemma {:induction false} ProductOfIntegers(a: int, b: nat)
    ensures (a * b) as real == Times(a as real, b as real)
  {
    if b > 0 {
      ProductOfIntegers(a, b - 1);
      assert a * b == a * (b - 1) + a;
      assert Times(a as real, b as real) == Times(a as real, (b - 1) as real) + a as real;
    }
  }

  lemma {:induction false} FloorLeavesRoom(votes: int, n: nat, cap: int)
    requires 0 < n && votes <= cap * n
    ensures var level := votes / n; level * n <= votes && level <= cap && votes - level <= cap * (n - 1)
  {
    var level := votes / n;
    assert votes == level * n + votes % n;
    if cap < level {
      IntScale(cap + 1, level, n);
    } else if level < cap {
      IntScale(level + 1, cap, n - 1);
    }
  }

  lemma {:induction false} FloorLeavesRoomReal(votes: int, n: nat, cap: int)
    requires 0 < n && votes as real <= Times(cap as real, n as real)
    ensures var level := votes / n;
      && level <= cap && Times(level as real, n as real) <= votes as real
      && votes as real - level as real <= Times(cap as real, n as real) - cap as real
  {
    ProductOfIntegers(cap, n);
    FloorLeavesRoom(votes, n, cap);
    ProductOfIntegers(votes / n, n);
    assert cap * (n - 1) == cap * n - cap;
  }

  lemma {:induction false} IntScale(a: int, b: int, n: nat)
    requires a <= b
    ensures a * n <= b * n
  {
  }

  /** The whole part of the average, and what remains for the validators after the
      first if it takes that much. */
  lemma {:induction false} AverageLevel(
      s: seq<real>, overflow: real, cap: real, round: real -> real) returns (level: int)
    requires RoundsToIntegers(round) && Fixed(s, round) && OnGrid(round, overflow) && OnGrid(round, cap)
    requires 0 < PositiveCount(s) && SumReal(s) + overflow <= Room(s, cap)
    ensures level as real <= cap && Times(level as real, PositiveCount(s) as real) <= SumReal(s) + overflow
    ensures SumReal(s) + overflow - level as real <= Room(s, cap) - cap
  {
    var votes := WholeVotes(s, overflow, round);
    var c := cap.Floor;
    assert cap == c as real;
    RoomIsCapPerValidator(s, cap);
    FloorLeavesRoomReal(votes, PositiveCount(s), c);
    level := votes / PositiveCount(s);
  }

  /** With integer rounding the next validator takes at least the whole part of the
      average, and what remains fits under the cap of those after it. */
  lemma {:induction false} UnderfullGain(power: seq<real>, v: nat, overflow: real, cap: real, round: real -> real)
    requires RoundsToIntegers(round)
    requires v < |power| && PoolState(power, overflow, cap, round) && DescendingFrom(power, v)
    requires SumReal(power[v..]) != 0.0 && SumReal(power[v..]) + overflow <= Room(power[v..], cap)
    ensures SumReal(power[v + 1..]) + (overflow - Gain(power, v, overflow, cap, round)) <= Room(power[v + 1..], cap)
  {
    FirstHasPower(power, v);
    var level := AverageLevel(power[v..], overflow, cap, round);
    AverageTaken(power, v, overflow, cap, round, level);
    DropFirst(power, v);
    RoomSplits(power, v, cap);
  }

  lemma {:induction false} WholeVotes(s: seq<real>, overflow: real, round: real -> real) returns (votes: int)
    requires RoundsToIntegers(round) && Fixed(s, round) && OnGrid(round, overflow)
    ensures votes as real == SumReal(s) + overflow
  {
    IntegersAreGrid(round);
    SumOnGrid(s, round);
    var a, b := SumReal(s).Floor, overflow.Floor;
    assert SumReal(s) == a as real && overflow == b as real;
    votes := a + b;
  }

  lemma {:induction false} AverageTaken(
      power: seq<real>, v: nat, overflow: real, cap: real, round: real -> real, level: int)
    requires RoundsToIntegers(round)
    requires v < |power| && PoolState(power, overflow, cap, round) && DescendingFrom(power, v)
    requires SumReal(power[v..]) != 0.0 && level as real <= cap
    requires Times(level as real, PositiveCount(power[v..]) as real) <= SumReal(power[v..]) + overflow
    ensures level as real - power[v] <= Gain(power, v, overflow, cap, round)
  {
    var s := power[v..];
    IntegersAreGrid(round);
    FirstHasPower(power, v);
    ShareReachesAverage(overflow, power[v], SumReal(s), PositiveCount(s) as real, level as real);
    assert FixesInteger(round, level);
    FullGain(Share(overflow, power[v], SumReal(s)), power[v], level as real, cap, round);
  }

  lemma {:induction false} UnderfullStep(
      power: seq<real>, v: nat, overflow: real, cap: real, round: real -> real) returns (g: real, next: seq<real>)
    requires RoundsToIntegers(round)
    requires v < |power| && PoolState(power, overflow, cap, round) && DescendingFrom(power, v)
    requires SumReal(power[v..]) != 0.0 && SumReal(power[v..]) + overflow <= Room(power[v..], cap)
    ensures |next| == |power| && PoolState(next, overflow - g, cap, round) && DescendingFrom(next, v + 1)
    ensures SumReal(next[v + 1..]) + (overflow - g) <= Room(next[v + 1..], cap)
    ensures Pour(power, v, overflow, cap, round) == Pour(next, v + 1, overflow - g, cap, round)
  {
    IntegersAreGrid(round);
    UnderfullGain(power, v, overflow, cap, round);
    g, next := PourStep(power, v, overflow, cap, round);
    assert next[v + 1..] == power[v + 1..];
  }

  /** No more votes than fit: with integer rounding nothing is left over. */
  lemma {:induction false} Underfull(power: seq<real>, v: nat, overflow: real, cap: real, round: real -> real)
    requires RoundsToIntegers(round)
    requires v <= |power| && PoolState(power, overflow, cap, round) && DescendingFrom(power, v)
    requires SumReal(power[v..]) + overflow <= Room(power[v..], cap)
    ensures Pour(power, v, overflow, cap, round).1 == 0.0
    decreases |power| - v
  {
    if v < |power| && SumReal(power[v..]) != 0.0 {
      var g, next := UnderfullStep(power, v, overflow, cap, round);
      Underfull(next, v + 1, overflow - g, cap, round);
    } else {
      ZeroSumZeros(power, v);
      NoRoom(power[v..], cap);
    }
  }

  /** A rounding of the script: to integers, or none. */
  ghost predicate IntegerOrExact(round: real -> real) { RoundsToIntegers(round) || Exact(round) }

  lemma {:induction false} IntegerOrExactIsRounding(round: real -> real)
    requires IntegerOrExact(round)
    ensures IsRounding(round)
  {
    if Exact(round) {
      ExactIsRounding(round);
    } else {
      IntegersAreGrid(round);
    }
  }

  /** The votes that do not fit under the cap of the validators with power. */
  function Excess(before: seq<real>, votes: real, cap: real): real {
    if Room(before, cap) < votes then votes - Room(before, cap) else 0.0
  }

  /** What is left over, with integer rounding or none: exactly the votes that do not
      fit, and if there are any, everybody with power is at the cap. */
  lemma {:induction false} Leftover(before: seq<real>, over: real, cap: real, round: real -> real)
    requires IntegerOrExact(round) && PoolState(before, over, cap, round) && Descending(before)
    ensures var (power, overflow) := Pour(before, 0, over, cap, round);
      && overflow == Excess(before, SumReal(before) + over, cap)
      && (0.0 < overflow ==> forall i :: 0 <= i < |before| && 0.0 < before[i] ==> power[i] == cap)
  {
    IntegerOrExactIsRounding(round);
    assert before[0..] == before;
    if Room(before, cap) < SumReal(before) + over {
      Overfull(before, 0, over, cap, round);
    } else if Exact(round) {
      ExactUnderfull(before, over, cap, round);
    } else {
      Underfull(before, 0, over, cap, round);
    }
  }

  lemma {:induction false} ExactUnderfull(before: seq<real>, over: real, cap: real, round: real -> real)
    requires Exact(round) && PoolState(before, over, cap, round) && Descending(before)
    requires SumReal(before) + over <= Room(before, cap)
    ensures Pour(before, 0, over, cap, round).1 == 0.0
  {
    var power := Pour(before, 0, over, cap, round).0;
    ExactIsRounding(round);
    PourKeeps(before, 0, over, cap, round);
    RoomBounds(before, power, cap);
    var factor := WaterLevel(before, over, cap, round);
  }

  /** Without rounding the pool is filled to one level. */
  lemma {:induction false} WaterLevel(
      before: seq<real>, over: real, cap: real, round: real -> real) returns (factor: real)
    requires Exact(round) && PoolState(before, over, cap, round) && Descending(before)
    ensures var (power, overflow) := Pour(before, 0, over, cap, round); Filled(before, 0, power, overflow, cap, factor)
  {
    assert before[0..] == before;
    if SumReal(before) == 0.0 {
      factor := 1.0;
      ZeroSumZeros(before, 0);
      FilledZeros(before, 0, over, cap, round, factor);
    } else {
      factor := WaterFill(before, 0, over, cap, round);
    }
  }

  /** What the pool comes to: with integer rounding or none, the overflow that stays is
      exactly what does not fit under the cap of the validators with power, and if any
      stays they are all at the cap.  Without rounding moreover some factor scales every
      capped vote unless the cap stops it. */
  lemma {:induction false} PoolWaterLevel(voters: seq<Voter>, cap: real, round: real -> real) returns (factor: real)
    requires IntegerOrExact(round) && 0.0 <= cap && OnGrid(round, cap) && NoNegativeVotes(voters)
    ensures var before := Truncated(voters, cap, round).0;
      var (power, overflow) := Pool(voters, cap, round);
      && overflow == Excess(before, TotalVotes(voters, round), cap)
      && (0.0 < overflow ==> forall i :: 0 <= i < |power| && 0.0 < power[i] ==> power[i] == cap)
      && (Exact(round) ==> Filled(before, 0, power, overflow, cap, factor))
  {
    var (before, over) := Truncated(voters, cap, round);
    IntegerOrExactIsRounding(round);
    TruncatedIsPoolState(voters, cap, round);
    PoolConserves(voters, cap, round);
    Leftover(before, over, cap, round);
    factor := 1.0;
    if Exact(round) {
      factor := WaterLevel(before, over, cap, round);
    }
  }

  /** For any rounding at all: if there are more votes than fit, everybody with power is
      at the cap and the rest is left over; and if anything is left over, the last
      validator with power is at the cap. */
  lemma {:induction false} PoolLeftover(voters: seq<Voter>, cap: real, round: real -> real)
    requires IsRounding(round) && 0.0 <= cap && OnGrid(round, cap) && NoNegativeVotes(voters)
    ensures var before := Truncated(voters, cap, round).0;
      var (power, overflow) := Pool(voters, cap, round);
      && (Room(before, cap) < TotalVotes(voters, round) ==>
            overflow == Excess(before, TotalVotes(voters, round), cap)
            && forall i :: 0 <= i < |power| && 0.0 < power[i] ==> power[i] == cap)
      && (0.0 < overflow ==> forall m :: 0 <= m < |power| && IsLastPositive(power, m) ==> power[m] == cap)
  {
    var (before, over) := Truncated(voters, cap, round);
    TruncatedIsPoolState(voters, cap, round);
    PoolConserves(voters, cap, round);
    assert before[0..] == before;
    if Room(before, cap) < TotalVotes(voters, round) {
      Overfull(before, 0, over, cap, round);
    }
    var power := Pool(voters, cap, round).0;
    forall m | 0 <= m < |power| && IsLastPositive(power, m)
      ensures 0.0 < Pool(voters, cap, round).1 ==> power[m] == cap
    {
      LastPositiveAtCap(before, 0, over, cap, round, m);
    }
  }

  ghost predicate IsLastPositive(power: seq<real>, m: nat)
    requires m < |power|
  {
    0.0 < power[m] && forall i :: m < i < |power| ==> power[i] == 0.0
  }

  lemma {:induction false} NothingCut(voters: seq<Voter>, cap: real, round: real -> real)
    requires forall k :: 0 <= k < |voters| ==> Map(ValidVotes(round), voters)[k] <= cap
    ensures Truncated(voters, cap, round).1 == 0.0
  {
    var capped := Map(CappedBallot(cap, round), voters);
    SumRealSort(capped, MorePower, PowerOf);
    assert Map(PowerOf, capped) == Map(ValidVotes(round), voters);
  }

  /** Votes are cut only at the cap, so if any were cut, the first power is the cap. */
  lemma {:induction false} CutAtCap(voters: seq<Voter>, cap: real, round: real -> real)
    requires 0.0 < Truncated(voters, cap, round).1
    ensures voters != [] && Truncated(voters, cap, round).0[0] == cap
  {
    var votes, capped := Map(ValidVotes(round), voters), Map(CappedBallot(cap, round), voters);
    var frame := Frame(voters, cap, round);
    if forall k :: 0 <= k < |votes| ==> votes[k] <= cap {
      NothingCut(voters, cap, round);
    }
    var k :| 0 <= k < |votes| && votes[k] > cap;
    assert capped[k].power == cap;
    assert capped[k] in capped;
    StableSortMember(capped, MorePower, capped[k]);
    var i :| 0 <= i < |frame| && frame[i] == capped[k];
    assert TotalPreorder(MorePower);
    StableSortSorted(capped, MorePower);
    assert i > 0 ==> MorePower(frame[0], frame[i]);
    var m := BallotOrigin(voters, cap, round, 0);
  }

  /** Validators at the cap gain nothing and leave the overflow to the others. */
  lemma {:induction false} CappedGainNothing(
      power: seq<real>, v: nat, m: nat, overflow: real, cap: real, round: real -> real)
    requires IsRounding(round) && v <= m <= |power| && PoolState(power, overflow, cap, round)
    requires forall i :: v <= i < m ==> power[i] == cap
    ensures Pour(power, v, overflow, cap, round) == Pour(power, m, overflow, cap, round)
    decreases m - v
  {
    if v < m {
      if SumReal(power[v..]) == 0.0 {
        ZeroSumZeros(power, v);
        ZerosSum(power[m..]);
      } else {
        GainBounds(power, v, overflow, cap, round);
        assert power[v := power[v] + 0.0] == power;
        CappedGainNothing(power, v + 1, m, overflow, cap, round);
      }
    }
  }

  /** The pool of a run with rounding to nearest: the validators at the cap gain nothing,
      and if none of the others reaches it, each of them ends near the level that would
      spend the overflow on them evenly. */
  lemma {:induction false} PoolNearLevel(voters: seq<Voter>, cap: real, round: real -> real, m: nat)
    requires IsRounding(round) && Nearest(round) && 0.0 <= cap && OnGrid(round, cap) && NoNegativeVotes(voters)
    requires m <= |voters|
    requires var (before, over) := Truncated(voters, cap, round);
      && (forall i :: 0 <= i < m ==> before[i] == cap)
      && SumReal(before[m..]) != 0.0 && Loose(before, m, Level(over, SumReal(before[m..])), cap)
    ensures var (before, over) := Truncated(voters, cap, round);
      var power := Pool(voters, cap, round).0;
      && (forall i :: 0 <= i < m ==> power[i] == cap)
      && Near(power, before, m, Level(over, SumReal(before[m..])))
  {
    var (before, over) := Truncated(voters, cap, round);
    TruncatedIsPoolState(voters, cap, round);
    CappedGainNothing(before, 0, m, over, cap, round);
    SumNonNegative(before[m..]);
    LevelSpends(over, 0.0, SumReal(before[m..]));
    PourNearLevel(before, m, over, cap, round, Level(over, SumReal(before[m..])));
    PourFrame(before, m, over, cap, round);
  }

  /* The cap and the ballots, on the voters themselves. */

  lemma {:induction false} ValidVotesAre(v: Voter, round: real -> real)
    requires IsRounding(round)
    ensures ValidVotes(round)(v) == if v.eligible then round(v.votes) else 0.0
  {
    ZeroOnGrid(round);
  }

  lemma {:induction false} TotalIsEligible(voters: seq<Voter>, round: real -> real)
    requires IsRounding(round)
    ensures TotalVotes(voters, round) == EligibleVotes(voters, round)
  {
    if voters != [] {
      ValidVotesAre(voters[0], round);
      TotalIsEligible(voters[1..], round);
      assert Map(ValidVotes(round), voters)[1..] == Map(ValidVotes(round), voters[1..]);
    }
  }

  lemma {:induction false} CapNearLimit(voters: seq<Voter>, strategyVotes: real, capShare: real, round: real -> real)
    requires IsRounding(round) && Nearest(round)
    ensures var cap, limit := PowerCap(voters, strategyVotes, capShare, round),
      Limit(voters, strategyVotes, capShare, round);
      -0.5 <= cap - limit <= 0.5
  {
    TotalIsEligible(voters, round);
    assert RawCap(TotalVotes(voters, round), strategyVotes, capShare) == Limit(voters, strategyVotes, capShare, round);
  }

  lemma {:induction false} SumLess(a: seq<real>, b: seq<real>, k: nat)
    requires |a| == |b| && k < |a| && a[k] < b[k] && forall i :: 0 <= i < |a| ==> a[i] <= b[i]
    ensures SumReal(a) < SumReal(b)
  {
    if k == 0 {
      SumAtMost(a[1..], b[1..]);
    } else {
      SumLess(a[1..], b[1..], k - 1);
    }
  }

  lemma {:induction false} CutLeavesOverflow(voters: seq<Voter>, cap: real, round: real -> real, k: nat)
    requires k < |voters| && cap < ValidVotes(round)(voters[k])
    ensures 0.0 < Truncated(voters, cap, round).1
  {
    var votes, capped := Map(ValidVotes(round), voters), Map(CappedBallot(cap, round), voters);
    SumRealSort(capped, MorePower, PowerOf);
    SumLess(Map(PowerOf, capped), votes, k);
  }

  lemma {:induction false} PoolCapHolds(
      voters: seq<Voter>, strategyVotes: real, capShare: real, round: real -> real, frame: seq<Ballot>)
    requires CanVote(voters, strategyVotes, capShare, round)
    requires Map(PowerOf, frame) == Pool(voters, PowerCap(voters, strategyVotes, capShare, round), round).0
    ensures CapHolds(frame, voters, strategyVotes, capShare, round)
  {
    var cap := PowerCap(voters, strategyVotes, capShare, round);
    PowerCapValid(voters, strategyVotes, capShare, round);
    CapNearLimit(voters, strategyVotes, capShare, round);
    PoolConserves(voters, cap, round);
    var power := Map(PowerOf, frame);
    forall i | 0 <= i < |frame| ensures frame[i].power <= cap {
      assert power[i] == frame[i].power;
    }
    if k :| 0 <= k < |voters| && Exceeds(voters[k], Limit(voters, strategyVotes, capShare, round), round) {
      ValidVotesAre(voters[k], round);
      CutLeavesOverflow(voters, cap, round, k);
      CutAtCap(voters, cap, round);
      assert power[0] == frame[0].power;
    }
  }

  /** The frame has one ballot for each voter: its account, its votes if it is eligible,
      rounded, and as power what of them the cap allows. */
  lemma {:induction false} FrameHasVoters(voters: seq<Voter>, cap: real, round: real -> real)
    requires IsRounding(round)
    ensures multiset(Frame(voters, cap, round)) == multiset(Ballots(voters, cap, round))
  {
    StableSortPermutes(Map(CappedBallot(cap, round), voters), MorePower);
    BallotsAre(voters, cap, round);
  }

  function Ballots(voters: seq<Voter>, cap: real, round: real -> real): seq<Ballot> {
    if voters == [] then []
    else
      var votes := if voters[0].eligible then round(voters[0].votes) else 0.0;
      [Ballot(voters[0].account, votes, if votes <= cap then votes else cap)] + Ballots(voters[1..], cap, round)
  }

  lemma {:induction false} BallotsAre(voters: seq<Voter>, cap: real, round: real -> real)
    requires IsRounding(round)
    ensures Map(CappedBallot(cap, round), voters) == Ballots(voters, cap, round)
  {
    if voters != [] {
      ValidVotesAre(voters[0], round);
      BallotsAre(voters[1..], cap, round);
    }
  }
}
