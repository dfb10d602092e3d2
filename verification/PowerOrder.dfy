/** The order of the powers after the overflow of the vote pool was poured: what of the
    descending order of the capped votes survives. */
module PowerOrder {
  import opened Products
  import opened Rounding
  import opened Sequences
  import opened VemndePool

  /** The later of two neighbours ends at most one above the earlier, and not above it
      at all unless they were equal. */
  ghost predicate NearlyDescending(p: seq<real>, power: seq<real>, v: nat)
    requires |p| == |power|
  {
    forall i :: v <= i < |power| - 1 ==>
      && p[i + 1] <= p[i] + 1.0
      && (power[i + 1] < power[i] ==> p[i + 1] <= p[i])
  }

  /** What the next validator is due when the one before it took its rounded share. */
  lemma {:induction false} NextShare(overflow: real, weight: real, weights: real, g: real, x: real)
    requires 0.0 <= overflow && 0.0 < weight && 0.0 <= x <= weight && x <= weights - weight && 0.0 < weights - weight
    requires -0.5 <= g - Share(overflow, weight, weights) <= 0.5
    ensures x + Share(overflow - g, x, weights - weight) <= weight + g + 1.0
    ensures x <= weight - 1.0 ==> x + Share(overflow - g, x, weights - weight) <= weight + g
  {
    var f, rest := Level(overflow, weights), weights - weight;
    var e := weight + g - Times(f, weight);
    LevelSpends(overflow, weight, weights);
    TimesSum(f, weight, rest);
    MovedFactor(f, e, rest, x);
    MovedFactor(f, e, rest, rest);
    ProportionalShare(f - e / rest, x, rest);
    Scale(x, weight, f);
    assert Times(x, f) == Times(f, x) && Times(weight, f) == Times(f, weight);
    if x <= weight - 1.0 {
      Scale(x, weight - 1.0, f);
      assert Times(weight - 1.0, f) == Times(f, weight) - f;
    }
  }

  lemma {:induction false} RoundsBelow(share: real, x: real, bound: real, round: real -> real)
    requires RoundsToIntegers(round) && OnGrid(round, x) && OnGrid(round, bound) && x + share <= bound
    ensures x + round(share) <= bound
  {
    IntegersAreGrid(round);
    assert DifferenceOnGrid(round, bound, x) && Monotone(round, share, bound - x);
  }

  lemma {:induction false} Whole(round: real -> real, x: real) returns (k: int)
    requires RoundsToIntegers(round) && OnGrid(round, x)
    ensures x == k as real
  {
    k := x.Floor;
  }

  lemma {:induction false} OneMoreOnGrid(round: real -> real, x: real)
    requires RoundsToIntegers(round) && OnGrid(round, x)
    ensures OnGrid(round, x + 1.0)
  {
    var k := Whole(round, x);
    assert FixesInteger(round, k + 1);
  }

  lemma {:induction false} OneBelow(round: real -> real, x: real, y: real)
    requires RoundsToIntegers(round) && OnGrid(round, x) && OnGrid(round, y) && y < x
    ensures y <= x - 1.0
  {
    var k := Whole(round, x);
    var l := Whole(round, y);
    WholeBelow(k, l);
  }

  lemma {:induction false} WholeBelow(k: int, l: int)
    requires (l as real) < k as real
    ensures l as real <= k as real - 1.0
  {
    var d := k - l;
    assert d as real == k as real - l as real;
    assert d >= 1;
    assert d as real >= 1.0;
  }

  /** Two validators in a row. */
  lemma {:induction false} NeighbourGains(
      power: seq<real>, v: nat, overflow: real, cap: real, round: real -> real, g: real, next: seq<real>)
    requires RoundsToIntegers(round) && Nearest(round) && v + 1 < |power|
    requires PoolState(power, overflow, cap, round) && DescendingFrom(power, v)
    requires SumReal(power[v..]) != 0.0 && SumReal(power[v + 1..]) != 0.0
    requires g == Gain(power, v, overflow, cap, round) && next == power[v := power[v] + g]
    ensures SumReal(next[v + 1..]) != 0.0
    ensures var p := next[v + 1] + Gain(next, v + 1, overflow - g, cap, round);
      p <= next[v] + 1.0 && (power[v + 1] < power[v] ==> p <= next[v])
  {
    var w, x, weights := power[v], power[v + 1], SumReal(power[v..]);
    var share := Share(overflow, w, weights);
    IntegersAreGrid(round);
    GainBounds(power, v, overflow, cap, round);
    FirstHasPower(power, v);
    DropFirst(power, v);
    SumNonNegative(power[v + 1..]);
    assert power[v + 1..][0] == x;
    assert next[v + 1..] == power[v + 1..] && next[v + 1] == x;
    if g != cap - w {
      assert g == round(share);
      NextShare(overflow, w, weights, g, x);
      OneMoreOnGrid(round, w + g);
      var due := Share(overflow - g, x, weights - w);
      RoundsBelow(due, x, w + g + 1.0, round);
      if x < w {
        OneBelow(round, w, x);
        RoundsBelow(due, x, w + g, round);
      }
    }
  }

  lemma {:induction false} NearlyStep(power: seq<real>, v: nat, overflow: real, cap: real, round: real -> real)
    returns (rest: real, next: seq<real>)
    requires RoundsToIntegers(round) && Nearest(round) && v < |power|
    requires PoolState(power, overflow, cap, round) && DescendingFrom(power, v) && SumReal(power[v..]) != 0.0
    ensures |next| == |power| && PoolState(next, rest, cap, round) && DescendingFrom(next, v + 1)
    ensures forall i :: v < i < |power| ==> next[i] == power[i]
    ensures Pour(power, v, overflow, cap, round) == Pour(next, v + 1, rest, cap, round)
    ensures v + 1 < |power| ==>
      var p := Pour(next, v + 1, rest, cap, round).0;
      p[v + 1] <= p[v] + 1.0 && (power[v + 1] < power[v] ==> p[v + 1] <= p[v])
  {
    IntegersAreGrid(round);
    var g;
    g, next := PourStep(power, v, overflow, cap, round);
    rest := overflow - g;
    PourFrame(next, v + 1, rest, cap, round);
    if v + 1 < |power| {
      NeighbourEnds(power, v, overflow, cap, round, g, next);
    }
  }

  /** With rounding to nearest integers only equal powers can come out of order, and
      neighbours by no more than one. */
  lemma {:induction false} PourNearlyDescending(
      power: seq<real>, v: nat, overflow: real, cap: real, round: real -> real)
    requires RoundsToIntegers(round) && Nearest(round) && v <= |power|
    requires PoolState(power, overflow, cap, round) && DescendingFrom(power, v)
    ensures NearlyDescending(Pour(power, v, overflow, cap, round).0, power, v)
    decreases |power| - v
  {
    if v < |power| && SumReal(power[v..]) != 0.0 {
      var rest, next := NearlyStep(power, v, overflow, cap, round);
      PourNearlyDescending(next, v + 1, rest, cap, round);
      NearlyMore(Pour(next, v + 1, rest, cap, round).0, power, v, next);
    } else {
      ZeroSumZeros(power, v);
    }
  }

  lemma {:induction false} NearlyMore(p: seq<real>, power: seq<real>, v: nat, next: seq<real>)
    requires v < |power| == |next| == |p| && NearlyDescending(p, next, v + 1)
    requires forall i :: v < i < |power| ==> next[i] == power[i]
    requires v + 1 < |power| ==> p[v + 1] <= p[v] + 1.0 && (power[v + 1] < power[v] ==> p[v + 1] <= p[v])
    ensures NearlyDescending(p, power, v)
  {
    forall i | v <= i < |power| - 1
      ensures p[i + 1] <= p[i] + 1.0 && (power[i + 1] < power[i] ==> p[i + 1] <= p[i])
    {
      if v < i {
        assert next[i] == power[i] && next[i + 1] == power[i + 1];
      }
    }
  }

  lemma {:induction false} NeighbourEnds(
      power: seq<real>, v: nat, overflow: real, cap: real, round: real -> real, g: real, next: seq<real>)
    requires RoundsToIntegers(round) && Nearest(round) && v + 1 < |power|
    requires PoolState(power, overflow, cap, round) && DescendingFrom(power, v) && SumReal(power[v..]) != 0.0
    requires g == Gain(power, v, overflow, cap, round) && next == power[v := power[v] + g] && 0.0 <= g
    ensures var p := Pour(next, v + 1, overflow - g, cap, round).0;
      p[v + 1] <= next[v] + 1.0 && (power[v + 1] < power[v] ==> p[v + 1] <= next[v])
  {
    assert next[v + 1..] == power[v + 1..];
    if SumReal(power[v + 1..]) != 0.0 {
      NeighbourGains(power, v, overflow, cap, round, g, next);
      var more := Gain(next, v + 1, overflow - g, cap, round);
      PourFrame(next[v + 1 := next[v + 1] + more], v + 2, overflow - g - more, cap, round);
    }
  }

  /** The order of the powers: it survives without rounding, and with any rounding when
      there are more votes than fit.  With rounding to nearest integers only validators
      with equal capped votes can come out of order, neighbours by one at most; so it
      survives exactly when no such pair does. */
  lemma {:induction false} PoolOrder(voters: seq<Voter>, cap: real, round: real -> real)
    requires IsRounding(round) && 0.0 <= cap && OnGrid(round, cap) && NoNegativeVotes(voters)
    ensures var before, power := Truncated(voters, cap, round).0, Pool(voters, cap, round).0;
      && (Exact(round) || Room(before, cap) < TotalVotes(voters, round) ==> Descending(power))
      && (RoundsToIntegers(round) && Nearest(round) ==>
            && NearlyDescending(power, before, 0)
            && (Descending(power) <==> TiesDescending(power, before)))
  {
    var (before, over) := Truncated(voters, cap, round);
    var power := Pool(voters, cap, round).0;
    TruncatedIsPoolState(voters, cap, round);
    PoolConserves(voters, cap, round);
    if Room(before, cap) < TotalVotes(voters, round) {
      PoolLeftover(voters, cap, round);
      FullDescending(before, power, cap);
    }
    if Exact(round) {
      var factor := WaterLevel(before, over, cap, round);
      LevelDescending(before, power, cap, factor);
    }
    if RoundsToIntegers(round) && Nearest(round) {
      PourNearlyDescending(before, 0, over, cap, round);
      if TiesDescending(power, before) {
        assert forall i :: 0 <= i < |power| - 1 ==> before[i + 1] <= before[i];
        AdjacentDescending(power);
      }
    }
  }

  /** Neighbours with equal capped votes are in order. */
  ghost predicate TiesDescending(power: seq<real>, before: seq<real>)
    requires |power| == |before|
  {
    forall i :: 0 <= i < |power| - 1 && before[i + 1] == before[i] ==> power[i + 1] <= power[i]
  }

  lemma {:induction false} AdjacentDescending(power: seq<real>)
    requires forall i :: 0 <= i < |power| - 1 ==> power[i + 1] <= power[i]
    ensures Descending(power)
  {
    forall i, j | 0 <= i < j < |power| ensures power[j] <= power[i] {
      AdjacentChain(power, i, j);
    }
  }

  lemma {:induction false} AdjacentChain(power: seq<real>, i: nat, j: nat)
    requires i < j < |power| && forall k :: 0 <= k < |power| - 1 ==> power[k + 1] <= power[k]
    ensures power[j] <= power[i]
  {
    assert power[j - 1 + 1] <= power[j - 1];
    if i < j - 1 {
      AdjacentChain(power, i, j - 1);
    }
  }

  lemma {:induction false} FullDescending(before: seq<real>, power: seq<real>, cap: real)
    requires |before| == |power| && Descending(before)
    requires forall i :: 0 <= i < |power| ==> 0.0 <= before[i] <= power[i]
    requires forall i :: 0 <= i < |power| && before[i] == 0.0 ==> power[i] == 0.0
    requires forall i :: 0 <= i < |power| && 0.0 < power[i] ==> power[i] == cap
    ensures Descending(power)
  {
    forall i, j | 0 <= i < j < |power| ensures power[j] <= power[i] {
      assert before[j] <= before[i];
    }
  }

  lemma {:induction false} LevelDescending(before: seq<real>, power: seq<real>, cap: real, factor: real)
    requires |before| == |power| && Descending(before) && 0.0 <= factor
    requires forall i :: 0 <= i < |power| ==> power[i] == Min(cap, Times(factor, before[i]))
    ensures Descending(power)
  {
    forall i, j | 0 <= i < j < |power| ensures power[j] <= power[i] {
      Scale(before[j], before[i], factor);
      assert Times(before[j], factor) == Times(factor, before[j]) &&
        Times(before[i], factor) == Times(factor, before[i]);
    }
  }

  /** Four voters, one over the cap: the four votes cut from the first are shared out
      unevenly to the other three, who have five each. */
  function FourVoters(): seq<Voter> {
    [Voter("a", 104.0, true), Voter("b", 5.0, true), Voter("c", 5.0, true), Voter("d", 5.0, true)]
  }

  /** Rounding may undo the order of the powers. */
  lemma {:induction false} RoundingLosesOrder()
    ensures PowerCap(FourVoters(), 81.0, 0.5, RoundHalfEven) == 100.0
    ensures Pool(FourVoters(), 100.0, RoundHalfEven) == ([100.0, 6.0, 7.0, 6.0], 0.0)
  {
    FourVotes();
    FourBallots();
    FourPoured();
  }

  lemma {:induction false} FourVotes()
    ensures Map(ValidVotes(RoundHalfEven), FourVoters()) == [104.0, 5.0, 5.0, 5.0]
    ensures TotalVotes(FourVoters(), RoundHalfEven) == 119.0
    ensures PowerCap(FourVoters(), 81.0, 0.5, RoundHalfEven) == 100.0
  {
    var votes := Map(ValidVotes(RoundHalfEven), FourVoters());
    assert votes == [104.0, 5.0, 5.0, 5.0];
    SumOfFour(votes);
  }

  lemma {:induction false} SumOfFour(s: seq<real>)
    requires |s| == 4
    ensures SumReal(s) == s[0] + s[1] + s[2] + s[3]
  {
    assert s[0..] == s && s[4..] == [];
    DropFirst(s, 0);
    DropFirst(s, 1);
    DropFirst(s, 2);
    DropFirst(s, 3);
  }

  lemma {:induction false} FourSorted(a: Ballot, b: Ballot, c: Ballot, d: Ballot)
    requires a.power >= b.power >= c.power >= d.power
    ensures StableSort([a, b, c, d], MorePower) == [a, b, c, d]
  {
    assert [a, b, c, d][1..] == [b, c, d] && [b, c, d][1..] == [c, d] && [c, d][1..] == [d] && [d][1..] == [];
    assert StableSort([d], MorePower) == [d] && StableSort([c, d], MorePower) == [c, d];
    assert StableSort([b, c, d], MorePower) == [b, c, d];
  }

  lemma {:induction false} FourBallots()
    ensures Truncated(FourVoters(), 100.0, RoundHalfEven) == ([100.0, 5.0, 5.0, 5.0], 4.0)
  {
    FourVotes();
    var a, b, c, d := Ballot("a", 104.0, 100.0), Ballot("b", 5.0, 5.0), Ballot("c", 5.0, 5.0), Ballot("d", 5.0, 5.0);
    assert Map(CappedBallot(100.0, RoundHalfEven), FourVoters()) == [a, b, c, d];
    FourSorted(a, b, c, d);
    var power := Map(PowerOf, [a, b, c, d]);
    assert power == [100.0, 5.0, 5.0, 5.0];
    SumOfFour(power);
  }

  lemma {:induction false} FourPoured()
    ensures Pour([100.0, 5.0, 5.0, 5.0], 0, 4.0, 100.0, RoundHalfEven) == ([100.0, 6.0, 7.0, 6.0], 0.0)
  {
    var p0, p1 := [100.0, 5.0, 5.0, 5.0], [100.0, 6.0, 5.0, 5.0];
    var p2, p3 := [100.0, 6.0, 7.0, 5.0], [100.0, 6.0, 7.0, 6.0];
    var round := RoundHalfEven;
    assert p0[0..] == p0 && p0[1..] == [5.0, 5.0, 5.0] && p0[1..][1..] == [5.0, 5.0] && p0[1..][1..][1..] == [5.0];
    assert p1[2..] == [5.0, 5.0] && p2[3..] == [5.0];
    assert SumReal([5.0]) == 5.0 && SumReal([5.0, 5.0]) == 10.0 && SumReal([5.0, 5.0, 5.0]) == 15.0 &&
      SumReal(p0[0..]) == 115.0;
    FirstStaysAtCap(p0);
    assert round(Share(4.0, 5.0, 15.0)) == 1.0;
    assert p0[1 := 6.0] == p1 && Pour(p0, 1, 4.0, 100.0, round) == Pour(p1, 2, 3.0, 100.0, round);
    assert round(Share(3.0, 5.0, 10.0)) == 2.0;
    assert p1[2 := 7.0] == p2 && Pour(p1, 2, 3.0, 100.0, round) == Pour(p2, 3, 1.0, 100.0, round);
    assert round(Share(1.0, 5.0, 5.0)) == 1.0;
    assert p2[3 := 6.0] == p3 && Pour(p2, 3, 1.0, 100.0, round) == Pour(p3, 4, 0.0, 100.0, round);
  }

  lemma {:induction false} FirstStaysAtCap(power: seq<real>)
    requires power == [100.0, 5.0, 5.0, 5.0]
    ensures Pour(power, 0, 4.0, 100.0, RoundHalfEven) == Pour(power, 1, 4.0, 100.0, RoundHalfEven)
  {
    HalfEvenIsNearestRounding();
    forall i | 0 <= i < |power| ensures OnGrid(RoundHalfEven, power[i]) {
      assert FixesInteger(RoundHalfEven, 100) && FixesInteger(RoundHalfEven, 5);
      assert 100 as real == 100.0 && 5 as real == 5.0;
    }
    assert FixesInteger(RoundHalfEven, 4) && FixesInteger(RoundHalfEven, 100);
    CappedGainNothing(power, 0, 1, 4.0, 100.0, RoundHalfEven);
  }
}
