/** The last step of the scoring script: the stake is split into a budget for the
    veMNDE votes, one for the mSOL votes and one for the algorithm, and each budget
    is shared out to the validators and rounded. */
module StakeTargets {
  import opened Products
  import opened Rounding
  import opened Sequences
  import opened Wrappers

  datatype Params = Params(totalStake: real, controlVemnde: real, controlMsol: real)

  datatype Budgets = Budgets(vemnde: real, msol: real, algo: real)

  /** The columns the split reads, one entry per validator: the votes after the
      overflow was distributed, the valid mSOL votes, and the score of validators
      in the algo set (0 for the others). */
  datatype Columns = Columns(power: seq<real>, msolVotes: seq<real>, algoScore: seq<real>)

  ghost predicate ValidColumns(c: Columns) {
    && |c.power| == |c.msolVotes| == |c.algoScore|
    && forall i :: 0 <= i < |c.power| ==> 0.0 <= c.power[i]
  }

  function DividedBy(total: real): real -> real
    requires total != 0.0
  {
    (x: real) => x / total
  }

  function RoundedPart(budget: real, round: real -> real): real -> real {
    (share: real) => round(Times(share, budget))
  }

  /** The share of the pool that nobody could take. */
  function OverflowShare(power: seq<real>, overflow: real): real
    requires 0.0 <= overflow
  {
    if SumReal(power) > 0.0 then overflow / (SumReal(power) + overflow) else 1.0
  }

  function PowerShares(power: seq<real>, overflow: real): (r: seq<real>)
    requires 0.0 <= overflow
    ensures |r| == |power|
  {
    if SumReal(power) > 0.0
    then Map(DividedBy(SumReal(power) + overflow), power) else power
  }

  function MsolShares(votes: seq<real>): (r: seq<real>)
    ensures |r| == |votes|
  {
    if SumReal(votes) > 0.0 then Map(DividedBy(SumReal(votes)), votes) else seq(|votes|, _ => 0.0)
  }

  function BudgetsOf(p: Params, c: Columns, overflow: real): Budgets
    requires 0.0 <= overflow
  {
    var o := OverflowShare(c.power, overflow);
    var msol := Times(p.totalStake, p.controlMsol);
    var unused := SumReal(c.msolVotes) <= 0.0;
    Budgets(
      Times(Times(p.totalStake, p.controlVemnde), 1.0 - o),
      if unused then 0.0 else msol,
      Times(p.totalStake, 1.0 - p.controlVemnde - p.controlMsol) + Times(Times(o, p.totalStake), p.controlVemnde)
        + if unused then msol else 0.0)
  }

  function AddColumns(a: seq<real>, b: seq<real>): (r: seq<real>)
    requires |a| == |b|
    ensures |r| == |a|
  {
    seq(|a|, i requires 0 <= i < |a| => a[i] + b[i])
  }

  /** The share of each validator in the three budgets. */
  function Shares(c: Columns, overflow: real): (seq<real>, seq<real>, seq<real>)
    requires 0.0 <= overflow && SumReal(c.algoScore) != 0.0
  {
    (PowerShares(c.power, overflow), MsolShares(c.msolVotes), Map(DividedBy(SumReal(c.algoScore)), c.algoScore))
  }

  /** The targets; none when the scores of the algo set sum to zero, where the
      script divides zero by zero. */
  function Targets(p: Params, c: Columns, overflow: real, round: real -> real): (r: Option<seq<real>>)
    requires 0.0 <= overflow && |c.power| == |c.msolVotes| == |c.algoScore|
    ensures r.Some? ==> |r.value| == |c.power|
  {
    if SumReal(c.algoScore) == 0.0 then None
    else
      var b := BudgetsOf(p, c, overflow);
      var (vemnde, msol, algo) := Shares(c, overflow);
      Some(AddColumns(
        AddColumns(Map(RoundedPart(b.vemnde, round), vemnde), Map(RoundedPart(b.algo, round), algo)),
        Map(RoundedPart(b.msol, round), msol)))
  }

  /** Lines 260-278 of the script. */
  method SplitStake(p: Params, c: Columns, overflow: real, round: real -> real)
    returns (b: Budgets, targets: Option<seq<real>>)
    requires ValidColumns(c) && 0.0 <= overflow
    ensures b == BudgetsOf(p, c, overflow) && targets == Targets(p, c, overflow, round)
    ensures b.vemnde + b.msol + b.algo == p.totalStake
  {
    var vemndePower, overflowPower := c.power, 1.0;
    if SumReal(c.power) > 0.0 {
      var total := SumReal(c.power) + overflow;
      vemndePower := Map(DividedBy(total), c.power);
      overflowPower := overflow / total;
    }
    var msolTotal := SumReal(c.msolVotes);
    var msolPower := seq(|c.msolVotes|, _ => 0.0);
    if msolTotal > 0.0 {
      msolPower := Map(DividedBy(msolTotal), c.msolVotes);
    }
    var vemndeOverflow := Times(Times(overflowPower, p.totalStake), p.controlVemnde);
    var msolUnused := if msolTotal > 0.0 then 0.0 else Times(p.totalStake, p.controlMsol);
    b := Budgets(
      Times(Times(p.totalStake, p.controlVemnde), 1.0 - overflowPower),
      if msolTotal > 0.0 then Times(p.totalStake, p.controlMsol) else 0.0,
      Times(p.totalStake, 1.0 - p.controlVemnde - p.controlMsol) + vemndeOverflow + msolUnused);
    BudgetsSum(p, c, overflow);
    if SumReal(c.algoScore) == 0.0 {
      targets := None;
    } else {
      var vemnde := Map(RoundedPart(b.vemnde, round), vemndePower);
      var msol := Map(RoundedPart(b.msol, round), msolPower);
      var algo := Map(RoundedPart(b.algo, round), Map(DividedBy(SumReal(c.algoScore)), c.algoScore));
      targets := Some(AddColumns(AddColumns(vemnde, algo), msol));
    }
  }

  /** The three budgets are the whole stake, in every branch. */
  lemma {:induction false} BudgetsSum(p: Params, c: Columns, overflow: real)
    requires 0.0 <= overflow
    ensures var b := BudgetsOf(p, c, overflow); b.vemnde + b.msol + b.algo == p.totalStake
  {
    var o := OverflowShare(c.power, overflow);
    var t, cv, cm := p.totalStake, p.controlVemnde, p.controlMsol;
    assert t * cv * (1.0 - o) == t * cv - o * t * cv;
    assert t * (1.0 - cv - cm) == t - t * cv - t * cm;
  }

  lemma {:induction false} DividedSum(s: seq<real>, total: real)
    requires total != 0.0
    ensures SumReal(Map(DividedBy(total), s)) == SumReal(s) / total
  {
    if s != [] {
      DividedSum(s[1..], total);
      assert (s[0] + SumReal(s[1..])) / total == s[0] / total + SumReal(s[1..]) / total;
    }
  }

  lemma {:induction false} AddColumnsSum(a: seq<real>, b: seq<real>)
    requires |a| == |b|
    ensures SumReal(AddColumns(a, b)) == SumReal(a) + SumReal(b)
  {
    if a != [] {
      AddColumnsSum(a[1..], b[1..]);
      assert AddColumns(a, b)[1..] == AddColumns(a[1..], b[1..]);
    }
  }

  /** Sharing out a budget loses or gains at most one half per validator. */
  lemma {:induction false} RoundedColumnSum(shares: seq<real>, budget: real, round: real -> real)
    requires Nearest(round)
    ensures var error := SumReal(Map(RoundedPart(budget, round), shares)) - Times(SumReal(shares), budget);
      -0.5 * |shares| as real <= error <= 0.5 * |shares| as real
  {
    if shares == [] {
      assert Times(0.0, budget) == 0.0;
    } else {
      RoundedColumnSum(shares[1..], budget, round);
      TimesAdd(shares[0], SumReal(shares[1..]), budget);
      RoundedPartError(shares[0], budget, round);
      assert |shares| as real == 1.0 + |shares[1..]| as real;
    }
  }

  lemma {:induction false} RoundedPartError(share: real, budget: real, round: real -> real)
    requires Nearest(round)
    ensures -0.5 <= RoundedPart(budget, round)(share) - Times(share, budget) <= 0.5
  {
  }

  lemma {:induction false} ZeroColumn(n: nat)
    ensures SumReal(seq(n, _ => 0.0)) == 0.0
    decreases n
  {
    var s: seq<real> := seq(n, _ => 0.0);
    if n > 0 {
      ZeroColumn(n - 1);
      assert s[1..] == seq(n - 1, _ => 0.0);
    }
  }

  lemma {:induction false} WholeShared(s: seq<real>)
    requires SumReal(s) != 0.0
    ensures SumReal(Map(DividedBy(SumReal(s)), s)) == 1.0
  {
    var total := SumReal(s);
    DividedSum(s, total);
    assert total / total == 1.0;
  }

  lemma {:induction false} PowerSharesSum(power: seq<real>, overflow: real)
    requires 0.0 <= overflow && forall i :: 0 <= i < |power| ==> 0.0 <= power[i]
    ensures SumReal(PowerShares(power, overflow)) == 1.0 - OverflowShare(power, overflow)
  {
    var s := SumReal(power);
    SumNonNegative(power);
    if s > 0.0 {
      DividedSum(power, s + overflow);
      assert s / (s + overflow) + overflow / (s + overflow) == 1.0;
    }
  }

  lemma {:induction false} MsolSharesSum(votes: seq<real>)
    ensures SumReal(MsolShares(votes)) == (if SumReal(votes) > 0.0 then 1.0 else 0.0)
  {
    if SumReal(votes) > 0.0 {
      WholeShared(votes);
    } else {
      ZeroColumn(|votes|);
    }
  }

  /** The stake that no target claims: the overflow share is taken out of the
      veMNDE budget although the powers were already divided by a total that
      includes the overflow. */
  function Shortfall(p: Params, overflowShare: real): real {
    p.totalStake * p.controlVemnde * overflowShare * (1.0 - overflowShare)
  }

  lemma {:induction false} BudgetsShortfall(p: Params, c: Columns, overflow: real)
    requires 0.0 <= overflow
    ensures var b, o := BudgetsOf(p, c, overflow), OverflowShare(c.power, overflow);
      Times(1.0 - o, b.vemnde) + b.msol + b.algo == p.totalStake - Shortfall(p, o)
  {
    var b, o := BudgetsOf(p, c, overflow), OverflowShare(c.power, overflow);
    BudgetsSum(p, c, overflow);
    var x := p.totalStake * p.controlVemnde;
    assert (1.0 - o) * (x * (1.0 - o)) == x * (1.0 - o) - x * o * (1.0 - o);
  }

  lemma {:induction false} ColumnSums(p: Params, c: Columns, overflow: real, round: real -> real)
    requires 0.0 <= overflow && SumReal(c.algoScore) != 0.0 && |c.power| == |c.msolVotes| == |c.algoScore|
    ensures var b := BudgetsOf(p, c, overflow);
      var (vemnde, msol, algo) := Shares(c, overflow);
      SumReal(Targets(p, c, overflow, round).value) ==
        SumReal(Map(RoundedPart(b.vemnde, round), vemnde)) + SumReal(Map(RoundedPart(b.msol, round), msol))
        + SumReal(Map(RoundedPart(b.algo, round), algo))
  {
    var b := BudgetsOf(p, c, overflow);
    var (vemnde, msol, algo) := Shares(c, overflow);
    var v, m, a := Map(RoundedPart(b.vemnde, round), vemnde), Map(RoundedPart(b.msol, round), msol),
      Map(RoundedPart(b.algo, round), algo);
    AddColumnsSum(v, a);
    AddColumnsSum(AddColumns(v, a), m);
  }

  /** The rounded targets add up to the stake less the shortfall, give or take one
      half for each of the three roundings per validator. */
  lemma {:induction false} TargetsSum(p: Params, c: Columns, overflow: real, round: real -> real)
    requires ValidColumns(c) && 0.0 <= overflow && Nearest(round) && SumReal(c.algoScore) != 0.0
    ensures var expected := p.totalStake - Shortfall(p, OverflowShare(c.power, overflow));
      var total := SumReal(Targets(p, c, overflow, round).value);
      -1.5 * |c.power| as real <= total - expected <= 1.5 * |c.power| as real
  {
    var b := BudgetsOf(p, c, overflow);
    var (vemnde, msol, algo) := Shares(c, overflow);
    ColumnSums(p, c, overflow, round);
    RoundedColumnSum(vemnde, b.vemnde, round);
    RoundedColumnSum(msol, b.msol, round);
    RoundedColumnSum(algo, b.algo, round);
    PowerSharesSum(c.power, overflow);
    MsolSharesSum(c.msolVotes);
    WholeShared(c.algoScore);
    WholeParts(b, SumReal(msol));
    BudgetsShortfall(p, c, overflow);
  }

  lemma {:induction false} UnroundedColumnSum(shares: seq<real>, budget: real, round: real -> real)
    requires Exact(round)
    ensures SumReal(Map(RoundedPart(budget, round), shares)) == Times(SumReal(shares), budget)
  {
    if shares == [] {
      assert Times(0.0, budget) == 0.0;
    } else {
      UnroundedColumnSum(shares[1..], budget, round);
      TimesAdd(shares[0], SumReal(shares[1..]), budget);
      assert OnGrid(round, Times(shares[0], budget));
    }
  }

  /** Without rounding the targets fall short of the stake by exactly the shortfall. */
  lemma {:induction false} UnroundedTotal(p: Params, c: Columns, overflow: real, round: real -> real)
    requires ValidColumns(c) && 0.0 <= overflow && Exact(round) && SumReal(c.algoScore) != 0.0
    ensures SumReal(Targets(p, c, overflow, round).value) ==
      p.totalStake - Shortfall(p, OverflowShare(c.power, overflow))
  {
    var b := BudgetsOf(p, c, overflow);
    var (vemnde, msol, algo) := Shares(c, overflow);
    ColumnSums(p, c, overflow, round);
    UnroundedColumnSum(vemnde, b.vemnde, round);
    UnroundedColumnSum(msol, b.msol, round);
    UnroundedColumnSum(algo, b.algo, round);
    PowerSharesSum(c.power, overflow);
    MsolSharesSum(c.msolVotes);
    WholeShared(c.algoScore);
    WholeParts(b, SumReal(msol));
    BudgetsShortfall(p, c, overflow);
  }

  lemma {:induction false} WholeParts(b: Budgets, msolShare: real)
    requires msolShare == 1.0 || (msolShare == 0.0 && b.msol == 0.0)
    ensures Times(1.0, b.algo) == b.algo && Times(msolShare, b.msol) == b.msol
  {
  }

  /** Rounding aside, the whole stake is targeted exactly when there is nothing for
      the veMNDE votes to control, no vote counted at all, or every vote found room
      below the cap. */
  lemma {:induction false} WholeStakeTargeted(p: Params, power: seq<real>, overflow: real)
    requires 0.0 <= overflow && forall i :: 0 <= i < |power| ==> 0.0 <= power[i]
    ensures Shortfall(p, OverflowShare(power, overflow)) == 0.0 <==>
      p.totalStake == 0.0 || p.controlVemnde == 0.0 || SumReal(power) == 0.0 || overflow == 0.0
  {
    SumNonNegative(power);
    var s, o := SumReal(power), OverflowShare(power, overflow);
    if s > 0.0 {
      assert o * (s + overflow) == overflow;
      assert (1.0 - o) * (s + overflow) == s;
      assert o != 1.0;
      assert o == 0.0 <==> overflow == 0.0;
    }
    ProductZero(p.totalStake, p.controlVemnde);
    ProductZero(p.totalStake * p.controlVemnde, o);
    ProductZero(p.totalStake * p.controlVemnde * o, 1.0 - o);
  }

  lemma {:induction false} ProductZero(x: real, y: real)
    ensures x * y == 0.0 <==> x == 0.0 || y == 0.0
  {
    if y != 0.0 {
      assert x == x * y / y;
    }
  }

  /* What each validator gets. */

  /** Shares of control that leave something to the algorithm. */
  ghost predicate ValidParams(p: Params) {
    0.0 <= p.totalStake && 0.0 <= p.controlVemnde && 0.0 <= p.controlMsol && p.controlVemnde + p.controlMsol <= 1.0
  }

  ghost predicate NonNegative(s: seq<real>) { forall i :: 0 <= i < |s| ==> 0.0 <= s[i] }

  lemma {:induction false} ProductNonNegative(x: real, y: real)
    requires 0.0 <= x && 0.0 <= y
    ensures 0.0 <= x * y
  {
  }

  lemma {:induction false} QuotientNonNegative(x: real, y: real)
    requires 0.0 <= x && 0.0 < y
    ensures 0.0 <= x / y
    ensures x <= y ==> x / y <= 1.0
    ensures x == 0.0 ==> x / y == 0.0
  {
  }

  lemma {:induction false} OverflowShareBounds(power: seq<real>, overflow: real)
    requires 0.0 <= overflow
    ensures 0.0 <= OverflowShare(power, overflow) <= 1.0
  {
    if SumReal(power) > 0.0 {
      QuotientNonNegative(overflow, SumReal(power) + overflow);
    }
  }

  lemma {:induction false} BudgetsNonNegative(p: Params, c: Columns, overflow: real)
    requires ValidParams(p) && 0.0 <= overflow
    ensures var b := BudgetsOf(p, c, overflow); 0.0 <= b.vemnde && 0.0 <= b.msol && 0.0 <= b.algo
  {
    var o := OverflowShare(c.power, overflow);
    OverflowShareBounds(c.power, overflow);
    ProductNonNegative(p.totalStake, p.controlVemnde);
    ProductNonNegative(p.totalStake * p.controlVemnde, 1.0 - o);
    ProductNonNegative(p.totalStake, p.controlMsol);
    ProductNonNegative(p.totalStake, 1.0 - p.controlVemnde - p.controlMsol);
    ProductNonNegative(o, p.totalStake);
    ProductNonNegative(o * p.totalStake, p.controlVemnde);
  }

  /** A share of a budget, rounded. */
  lemma {:induction false} RoundedPartBounds(share: real, budget: real, round: real -> real)
    requires IsRounding(round) && 0.0 <= share && 0.0 <= budget
    ensures 0.0 <= RoundedPart(budget, round)(share)
    ensures share == 0.0 ==> RoundedPart(budget, round)(share) == 0.0
  {
    ProductNonNegative(share, budget);
    ZeroOnGrid(round);
    assert Monotone(round, 0.0, Times(share, budget));
  }

  lemma {:induction false} DividedNonNegative(s: seq<real>, i: nat)
    requires NonNegative(s) && SumReal(s) != 0.0 && i < |s|
    ensures 0.0 <= s[i] / SumReal(s)
    ensures s[i] == 0.0 ==> s[i] / SumReal(s) == 0.0
  {
    SumNonNegative(s);
    QuotientNonNegative(s[i], SumReal(s));
  }

  lemma {:induction false} SharesNonNegative(c: Columns, overflow: real, i: nat)
    requires ValidColumns(c) && 0.0 <= overflow && SumReal(c.algoScore) != 0.0 && i < |c.power|
    requires NonNegative(c.msolVotes) && NonNegative(c.algoScore)
    ensures var (vemnde, msol, algo) := Shares(c, overflow);
      && 0.0 <= vemnde[i] && 0.0 <= msol[i] && 0.0 <= algo[i]
      && (c.power[i] == 0.0 ==> vemnde[i] == 0.0)
      && (c.msolVotes[i] == 0.0 ==> msol[i] == 0.0)
      && (c.algoScore[i] == 0.0 ==> algo[i] == 0.0)
  {
    if SumReal(c.power) > 0.0 {
      QuotientNonNegative(c.power[i], SumReal(c.power) + overflow);
    }
    if SumReal(c.msolVotes) > 0.0 {
      DividedNonNegative(c.msolVotes, i);
    }
    DividedNonNegative(c.algoScore, i);
  }

  /** No target is negative, and a validator without power, valid mSOL votes and score
      gets none. */
  lemma {:induction false} TargetBounds(p: Params, c: Columns, overflow: real, round: real -> real, i: nat)
    requires ValidParams(p) && IsRounding(round)
    requires ValidColumns(c) && 0.0 <= overflow && SumReal(c.algoScore) != 0.0 && i < |c.power|
    requires NonNegative(c.msolVotes) && NonNegative(c.algoScore)
    ensures var targets := Targets(p, c, overflow, round).value;
      && 0.0 <= targets[i]
      && (c.power[i] == 0.0 && c.msolVotes[i] == 0.0 && c.algoScore[i] == 0.0 ==> targets[i] == 0.0)
  {
    var b := BudgetsOf(p, c, overflow);
    var (vemnde, msol, algo) := Shares(c, overflow);
    BudgetsNonNegative(p, c, overflow);
    SharesNonNegative(c, overflow, i);
    RoundedPartBounds(vemnde[i], b.vemnde, round);
    RoundedPartBounds(msol[i], b.msol, round);
    RoundedPartBounds(algo[i], b.algo, round);
  }

  /* What a target is made of, on the votes and the scores. */

  /** The part of a stake that some of a total is due; nothing of an empty total. */
  function Due(part: real, total: real, stake: real): real {
    if total > 0.0 then Times(part / total, stake) else 0.0
  }

  lemma {:induction false} VemndePart(p: Params, c: Columns, overflow: real, round: real -> real, i: nat)
    requires ValidColumns(c) && 0.0 <= overflow && SumReal(c.algoScore) != 0.0 && i < |c.power| && IsRounding(round)
    ensures var votes := SumReal(c.power) + overflow;
      round(Times(Shares(c, overflow).0[i], BudgetsOf(p, c, overflow).vemnde)) ==
        if SumReal(c.power) > 0.0
        then round(Due(c.power[i], votes, Times(Times(p.totalStake, p.controlVemnde), 1.0 - overflow / votes)))
        else 0.0
  {
    if SumReal(c.power) <= 0.0 {
      SumNonNegative(c.power);
      ZeroOnGrid(round);
      assert Times(c.power[i], BudgetsOf(p, c, overflow).vemnde) == 0.0;
    }
  }

  lemma {:induction false} MsolPart(p: Params, c: Columns, overflow: real, round: real -> real, i: nat)
    requires ValidColumns(c) && 0.0 <= overflow && SumReal(c.algoScore) != 0.0 && i < |c.power| && IsRounding(round)
    ensures round(Times(Shares(c, overflow).1[i], BudgetsOf(p, c, overflow).msol)) ==
      round(Due(c.msolVotes[i], SumReal(c.msolVotes), Times(p.totalStake, p.controlMsol)))
  {
    if SumReal(c.msolVotes) <= 0.0 {
      assert Times(0.0, 0.0) == 0.0;
    }
  }

  lemma {:induction false} TargetsAdd(p: Params, c: Columns, overflow: real, round: real -> real, i: nat)
    requires ValidColumns(c) && 0.0 <= overflow && SumReal(c.algoScore) != 0.0 && i < |c.power|
    ensures var b := BudgetsOf(p, c, overflow);
      var (vemnde, msol, algo) := Shares(c, overflow);
      Targets(p, c, overflow, round).value[i] ==
        round(Times(vemnde[i], b.vemnde)) + round(Times(algo[i], b.algo)) + round(Times(msol[i], b.msol))
  {
  }

  /** What the votes control of the stake, less what the overflow leaves of it. */
  function VemndeStake(p: Params, votes: real, overflow: real): real
    requires votes != 0.0
  {
    Times(Times(p.totalStake, p.controlVemnde), 1.0 - overflow / votes)
  }

  /** What is left for the scores: what neither kind of votes controls, what the overflow
      leaves of the veMNDE part, all of it without power, and what mSOL votes would
      control if there are none. */
  function ScoreStake(p: Params, power: real, overflow: real, msolVotes: real): real
    requires 0.0 <= overflow
  {
    Times(p.totalStake, 1.0 - p.controlVemnde - p.controlMsol)
    + Times(Times(if power > 0.0 then overflow / (power + overflow) else 1.0, p.totalStake), p.controlVemnde)
    + if msolVotes > 0.0 then 0.0 else Times(p.totalStake, p.controlMsol)
  }

  /** A target is, each rounded once: the part of all valid veMNDE votes, the overflow
      included, in what they control less the overflow; the part of the scores in what is
      left for them; and the part of the valid mSOL votes in what those control. */
  lemma {:induction false} TargetIsSum(p: Params, c: Columns, overflow: real, round: real -> real, i: nat)
    requires ValidColumns(c) && 0.0 <= overflow && SumReal(c.algoScore) > 0.0 && i < |c.power| && IsRounding(round)
    ensures var power, msol, scores := SumReal(c.power), SumReal(c.msolVotes), SumReal(c.algoScore);
      Targets(p, c, overflow, round).value[i] ==
        (if power > 0.0
         then round(Due(c.power[i], power + overflow, VemndeStake(p, power + overflow, overflow))) else 0.0)
        + round(Due(c.algoScore[i], scores, ScoreStake(p, power, overflow, msol)))
        + round(Due(c.msolVotes[i], msol, Times(p.totalStake, p.controlMsol)))
  {
    TargetsAdd(p, c, overflow, round, i);
    VemndePart(p, c, overflow, round, i);
    MsolPart(p, c, overflow, round, i);
  }

  lemma {:induction false} NothingDue(total: real, stake: real, round: real -> real)
    requires IsRounding(round)
    ensures round(Due(0.0, total, stake)) == 0.0
  {
    ZeroOnGrid(round);
    if total > 0.0 {
      QuotientNonNegative(0.0, total);
      assert Times(0.0, stake) == 0.0;
    }
  }

  /** With only mSOL votes a validator is targeted with its part of the valid mSOL votes
      in what they control, rounded once. */
  lemma {:induction false} MsolOnlyTarget(p: Params, c: Columns, overflow: real, round: real -> real, i: nat)
    requires ValidColumns(c) && 0.0 <= overflow && SumReal(c.algoScore) > 0.0 && i < |c.power| && IsRounding(round)
    requires c.power[i] == 0.0 && c.algoScore[i] == 0.0 && SumReal(c.msolVotes) > 0.0
    ensures var due := Times(c.msolVotes[i] / SumReal(c.msolVotes), Times(p.totalStake, p.controlMsol));
      var target := Targets(p, c, overflow, round).value[i];
      && (Exact(round) ==> target == due)
      && (Nearest(round) ==> -0.5 <= target - due <= 0.5)
  {
    var power, scores := SumReal(c.power), SumReal(c.algoScore);
    TargetIsSum(p, c, overflow, round, i);
    if power > 0.0 {
      NothingDue(power + overflow, VemndeStake(p, power + overflow, overflow), round);
    }
    NothingDue(scores, ScoreStake(p, power, overflow, SumReal(c.msolVotes)), round);
    RoundedOnce(Due(c.msolVotes[i], SumReal(c.msolVotes), Times(p.totalStake, p.controlMsol)), round);
  }

  lemma {:induction false} RoundedOnce(x: real, round: real -> real)
    ensures Exact(round) ==> round(x) == x
    ensures Nearest(round) ==> -0.5 <= round(x) - x <= 0.5
  {
    assert Exact(round) ==> OnGrid(round, x);
  }

  /** With only a score a validator is targeted with its part of the scores in what is
      left for them, rounded once. */
  lemma {:induction false} ScoreOnlyTarget(p: Params, c: Columns, overflow: real, round: real -> real, i: nat)
    requires ValidColumns(c) && 0.0 <= overflow && SumReal(c.algoScore) > 0.0 && i < |c.power| && IsRounding(round)
    requires c.power[i] == 0.0 && c.msolVotes[i] == 0.0
    ensures var left := ScoreStake(p, SumReal(c.power), overflow, SumReal(c.msolVotes));
      var due, target := Times(c.algoScore[i] / SumReal(c.algoScore), left), Targets(p, c, overflow, round).value[i];
      && (Exact(round) ==> target == due)
      && (Nearest(round) ==> -0.5 <= target - due <= 0.5)
  {
    var power, msol := SumReal(c.power), SumReal(c.msolVotes);
    TargetIsSum(p, c, overflow, round, i);
    if power > 0.0 {
      NothingDue(power + overflow, VemndeStake(p, power + overflow, overflow), round);
    }
    NothingDue(msol, Times(p.totalStake, p.controlMsol), round);
    RoundedOnce(Due(c.algoScore[i], SumReal(c.algoScore), ScoreStake(p, power, overflow, msol)), round);
  }

  /** Without rounding two validators with nothing but a score are targeted in proportion
      to their scores. */
  lemma {:induction false} ScoresInProportion(
      p: Params, c: Columns, overflow: real, round: real -> real, i: nat, j: nat)
    requires ValidColumns(c) && 0.0 <= overflow && SumReal(c.algoScore) > 0.0 && i < |c.power| && j < |c.power|
    requires Exact(round) && c.power[i] == c.power[j] == 0.0 && c.msolVotes[i] == c.msolVotes[j] == 0.0
    ensures var targets := Targets(p, c, overflow, round).value;
      Times(targets[i], c.algoScore[j]) == Times(targets[j], c.algoScore[i])
  {
    ExactIsRounding(round);
    ScoreOnlyTarget(p, c, overflow, round, i);
    ScoreOnlyTarget(p, c, overflow, round, j);
    InProportion(c.algoScore[i], c.algoScore[j], SumReal(c.algoScore),
      ScoreStake(p, SumReal(c.power), overflow, SumReal(c.msolVotes)));
  }

  lemma {:induction false} InProportion(x: real, y: real, total: real, budget: real)
    requires total != 0.0
    ensures Times(Times(x / total, budget), y) == Times(Times(y / total, budget), x)
  {
    var q := budget / total;
    assert x / total * budget == x * q && y / total * budget == y * q;
    assert x * q * y == y * q * x;
  }

  /** What is left for the scores, written out. */
  lemma {:induction false} ScoreStakeIs(p: Params, power: real, overflow: real, msolVotes: real)
    requires 0.0 <= overflow
    ensures var left := if power > 0.0 then overflow / (power + overflow) else 1.0;
      var unused := if msolVotes > 0.0 then 0.0 else p.totalStake * p.controlMsol;
      ScoreStake(p, power, overflow, msolVotes) ==
        p.totalStake * (1.0 - p.controlVemnde - p.controlMsol) + left * p.totalStake * p.controlVemnde + unused
  {
  }

  /** The targets of the scores, summed over all validators, are what is left for them. */
  lemma {:induction false} ScoresShareAll(scores: seq<real>, stake: real)
    requires SumReal(scores) > 0.0
    ensures SumReal(Map((x: real) => Due(x, SumReal(scores), stake), scores)) == stake
  {
    DueSum(scores, SumReal(scores), stake);
    assert SumReal(scores) / SumReal(scores) == 1.0;
    assert Times(1.0, stake) == stake;
  }

  lemma {:induction false} DueSum(scores: seq<real>, total: real, stake: real)
    requires total > 0.0
    ensures SumReal(Map((x: real) => Due(x, total, stake), scores)) == Due(SumReal(scores), total, stake)
  {
    if scores == [] {
      QuotientNonNegative(0.0, total);
      assert Times(0.0, stake) == 0.0;
    } else {
      DueSum(scores[1..], total, stake);
      DueAdds(scores[0], SumReal(scores[1..]), total, stake);
    }
  }

  lemma {:induction false} DueAdds(x: real, y: real, total: real, stake: real)
    requires total > 0.0
    ensures Due(x + y, total, stake) == Due(x, total, stake) + Due(y, total, stake)
  {
    assert (x + y) / total == x / total + y / total;
    TimesAdd(x / total, y / total, stake);
  }
}
