/** The vote pool and the stake split together: from votes to target stakes. */
module Allocation {
  import opened AlgoSet
  import opened Rounding
  import opened Sequences
  import opened StakeTargets
  import opened VemndePool

  ghost predicate ValidRun(voters: seq<Voter>, cap: real, msolVotes: seq<real>, algoScore: seq<real>) {
    && |voters| == |msolVotes| == |algoScore|
    && 0.0 <= cap && NoNegativeVotes(voters)
  }

  /** The columns of one run; the rows are in the order of the pool. */
  function RunColumns(
      voters: seq<Voter>, cap: real, round: real -> real, msolVotes: seq<real>, algoScore: seq<real>): Columns {
    Columns(Pool(voters, cap, round).0, msolVotes, algoScore)
  }

  /** The overflow share of a run is the part of all valid votes that was left over,
      with integer rounding or none the part that does not fit under the cap, and 1 when
      no vote counted. */
  lemma {:induction false} RunOverflowShare(voters: seq<Voter>, cap: real, round: real -> real)
    requires IsRounding(round) && 0.0 <= cap && OnGrid(round, cap) && NoNegativeVotes(voters)
    ensures var (power, overflow) := Pool(voters, cap, round);
      var before, votes := Truncated(voters, cap, round).0, TotalVotes(voters, round);
      && 0.0 <= overflow
      && (SumReal(power) > 0.0 ==> 0.0 < votes && OverflowShare(power, overflow) == overflow / votes)
      && (SumReal(power) > 0.0 && IntegerOrExact(round) ==>
        OverflowShare(power, overflow) == Excess(before, votes, cap) / votes)
      && (SumReal(power) <= 0.0 ==> OverflowShare(power, overflow) == 1.0)
  {
    PoolConserves(voters, cap, round);
    if IntegerOrExact(round) {
      var factor := PoolWaterLevel(voters, cap, round);
    }
  }

  /** End to end with the rounding of the script: the targets miss the total stake by
      the shortfall of the overflow share, give or take one half per rounding. */
  lemma {:induction false} RunTotal(
      p: Params, voters: seq<Voter>, cap: real, msolVotes: seq<real>, algoScore: seq<real>)
    requires ValidRun(voters, cap, msolVotes, algoScore) && OnGrid(RoundHalfEven, cap) && SumReal(algoScore) != 0.0
    ensures var c, overflow := RunColumns(voters, cap, RoundHalfEven, msolVotes, algoScore),
      Pool(voters, cap, RoundHalfEven).1;
      0.0 <= overflow &&
      var total := SumReal(Targets(p, c, overflow, RoundHalfEven).value);
      var expected := p.totalStake - Shortfall(p, OverflowShare(c.power, overflow));
      -1.5 * |voters| as real <= total - expected <= 1.5 * |voters| as real
  {
    HalfEvenIsNearestRounding();
    PoolConserves(voters, cap, RoundHalfEven);
    var (power, overflow) := Pool(voters, cap, RoundHalfEven);
    var c := RunColumns(voters, cap, RoundHalfEven, msolVotes, algoScore);
    TargetsSum(p, c, overflow, RoundHalfEven);
  }

  /** When nothing is lost: no stake, no control by votes, no vote that counts, or room
      for all votes below the cap of the validators with votes. */
  ghost predicate NothingLost(p: Params, voters: seq<Voter>, cap: real, round: real -> real) {
    var before := Truncated(voters, cap, round).0;
    || p.totalStake == 0.0 || p.controlVemnde == 0.0
    || SumReal(before) == 0.0 || TotalVotes(voters, round) <= Room(before, cap)
  }

  lemma {:induction false} RunShortfall(p: Params, voters: seq<Voter>, cap: real, round: real -> real)
    requires IntegerOrExact(round) && 0.0 <= cap && OnGrid(round, cap) && NoNegativeVotes(voters)
    ensures var (power, overflow) := Pool(voters, cap, round);
      0.0 <= overflow && (Shortfall(p, OverflowShare(power, overflow)) == 0.0 <==> NothingLost(p, voters, cap, round))
  {
    IntegerOrExactIsRounding(round);
    var before := Truncated(voters, cap, round).0;
    var (power, overflow) := Pool(voters, cap, round);
    var factor := PoolWaterLevel(voters, cap, round);
    PoolConserves(voters, cap, round);
    WholeStakeTargeted(p, power, overflow);
    SumAtMost(before, power);
    if SumReal(before) == 0.0 {
      ZeroSumZeros(before, 0);
      ZerosSum(power);
    } else {
      SumNonNegative(before);
    }
  }

  ghost predicate WithinError(x: real, y: real, error: real) { -error <= x - y <= error }

  /** From the votes on, with integer rounding or none: the targets are the whole stake,
      exactly without rounding and within three halves per validator with rounding to
      nearest, if nothing is lost, and without rounding only then. */
  lemma {:induction false} RunTargetsWholeStake(
      p: Params, voters: seq<Voter>, cap: real, round: real -> real, msolVotes: seq<real>, algoScore: seq<real>)
    requires IntegerOrExact(round) && OnGrid(round, cap)
    requires ValidRun(voters, cap, msolVotes, algoScore) && SumReal(algoScore) != 0.0
    ensures var c, overflow := RunColumns(voters, cap, round, msolVotes, algoScore), Pool(voters, cap, round).1;
      0.0 <= overflow &&
      var total := SumReal(Targets(p, c, overflow, round).value);
      && (Exact(round) ==> (total == p.totalStake <==> NothingLost(p, voters, cap, round)))
      && (Nearest(round) && NothingLost(p, voters, cap, round) ==>
        WithinError(total, p.totalStake, 1.5 * |voters| as real))
  {
    IntegerOrExactIsRounding(round);
    PoolConserves(voters, cap, round);
    RunShortfall(p, voters, cap, round);
    var c, overflow := RunColumns(voters, cap, round, msolVotes, algoScore), Pool(voters, cap, round).1;
    if Exact(round) {
      UnroundedTotal(p, c, overflow, round);
    }
    if Nearest(round) {
      TargetsSum(p, c, overflow, round);
    }
  }

  /** A run of the script as it is, with its own cap and rounding: the shortfall, which
      the targets meet within three halves per validator, is nothing exactly when nothing
      is lost. */
  lemma {:induction false} ScriptTargetsWholeStake(
      p: Params, voters: seq<Voter>, strategyVotes: real, capShare: real, msolVotes: seq<real>, algoScore: seq<real>)
    requires 0.0 <= strategyVotes && 0.0 <= capShare
    requires |voters| == |msolVotes| == |algoScore| && NoNegativeVotes(voters) && SumReal(algoScore) != 0.0
    ensures var cap := PowerCap(voters, strategyVotes, capShare, RoundHalfEven);
      var c, overflow := RunColumns(voters, cap, RoundHalfEven, msolVotes, algoScore),
        Pool(voters, cap, RoundHalfEven).1;
      0.0 <= overflow &&
      var total, missing := SumReal(Targets(p, c, overflow, RoundHalfEven).value),
        Shortfall(p, OverflowShare(c.power, overflow));
      && WithinError(total, p.totalStake - missing, 1.5 * |voters| as real)
      && (missing == 0.0 <==> NothingLost(p, voters, cap, RoundHalfEven))
  {
    HalfEvenIsNearestRounding();
    PowerCapValid(voters, strategyVotes, capShare, RoundHalfEven);
    var cap := PowerCap(voters, strategyVotes, capShare, RoundHalfEven);
    RunTotal(p, voters, cap, msolVotes, algoScore);
    RunShortfall(p, voters, cap, RoundHalfEven);
  }

  /** Half of the votes of a single validator are over its cap: of a stake of four
      million, with a fifth under veMNDE control, two hundred thousand are never
      targeted. */
  lemma {:induction false} StakeLost()
    ensures var voters := [Voter("v", 100.0, true)];
      var cap := PowerCap(voters, 0.0, 0.5, RoundHalfEven);
      var overflow := Pool(voters, cap, RoundHalfEven).1;
      var c := RunColumns(voters, cap, RoundHalfEven, [0.0], [1.0]);
      0.0 <= overflow &&
      SumReal(Targets(Params(4000000.0, 0.2, 0.2), c, overflow, RoundHalfEven).value) <= 3800001.5
  {
    var voters := [Voter("v", 100.0, true)];
    var p, cap := Params(4000000.0, 0.2, 0.2), PowerCap(voters, 0.0, 0.5, RoundHalfEven);
    HalfEvenIsNearestRounding();
    assert ValidVotes(RoundHalfEven)(voters[0]) == 100.0;
    assert Map(ValidVotes(RoundHalfEven), voters) == [100.0];
    assert TotalVotes(voters, RoundHalfEven) == 100.0 && RawCap(100.0, 0.0, 0.5) == 50.0 && cap == 50.0;
    var (power, overflow) := Pool(voters, cap, RoundHalfEven);
    var (before, _) := Truncated(voters, cap, RoundHalfEven);
    assert Map(CappedBallot(cap, RoundHalfEven), voters) == [Ballot("v", 100.0, 50.0)];
    assert Frame(voters, cap, RoundHalfEven) == [Ballot("v", 100.0, 50.0)];
    assert before == [50.0];
    PoolConserves(voters, cap, RoundHalfEven);
    assert power == [50.0] && overflow == 50.0;
    assert OverflowShare(power, overflow) == 0.5 && Shortfall(p, 0.5) == 200000.0;
    assert SumReal([1.0]) == 1.0;
    RunTotal(p, voters, cap, [0.0], [1.0]);
  }

  /* From the candidates and their votes to what each of them gets. */

  /** The score of a validator in the algo set, and 0 for the others. */
  function ScoreInSet(marked: seq<Candidate>, account: string): (score: real)
    ensures score == 0.0 || exists c :: c in marked && c.account == account && c.inSet && c.score == score
  {
    if marked == [] then 0.0
    else if marked[0].account == account then
      assert marked[0] in marked;
      if marked[0].inSet then marked[0].score else 0.0
    else
      assert forall c :: c in marked[1..] ==> c in marked;
      ScoreInSet(marked[1..], account)
  }

  /** The valid votes of a validator, and 0 without an entry. */
  function VotesFor(voters: seq<Voter>, round: real -> real, account: string): (votes: real)
    ensures votes == 0.0 || exists v :: v in voters && v.account == account && ValidVotes(round)(v) == votes
  {
    if voters == [] then 0.0
    else if voters[0].account == account then
      assert voters[0] in voters;
      ValidVotes(round)(voters[0])
    else
      assert forall v :: v in voters[1..] ==> v in voters;
      VotesFor(voters[1..], round, account)
  }

  function ScoreColumn(marked: seq<Candidate>): Ballot -> real {
    (b: Ballot) => ScoreInSet(marked, b.account)
  }

  function MsolColumn(msol: seq<Voter>, round: real -> real): Ballot -> real {
    (b: Ballot) => VotesFor(msol, round, b.account)
  }

  /** All columns of a run, in the order of the pool. */
  function JoinedColumns(
      marked: seq<Candidate>, voters: seq<Voter>, msol: seq<Voter>, cap: real, round: real -> real): Columns {
    var frame := Frame(voters, cap, round);
    Columns(Pool(voters, cap, round).0, Map(MsolColumn(msol, round), frame), Map(ScoreColumn(marked), frame))
  }

  /** A vote that counts. */
  ghost predicate HasVotes(voters: seq<Voter>, account: string) {
    exists v :: v in voters && v.account == account && v.eligible && 0.0 < v.votes
  }

  ghost predicate InSet(marked: seq<Candidate>, account: string) {
    exists c :: c in marked && c.account == account && c.inSet
  }

  lemma {:induction false} ScoreBounds(marked: seq<Candidate>, account: string)
    requires forall c :: c in marked ==> 0.0 <= c.score
    ensures 0.0 <= ScoreInSet(marked, account)
    ensures !InSet(marked, account) ==> ScoreInSet(marked, account) == 0.0
  {
  }

  lemma {:induction false} ValidVotesBounds(v: Voter, round: real -> real)
    requires IsRounding(round) && 0.0 <= v.votes
    ensures 0.0 <= ValidVotes(round)(v)
    ensures !(v.eligible && 0.0 < v.votes) ==> ValidVotes(round)(v) == 0.0
  {
    ValidVotesOnGrid(v, round);
    ZeroOnGrid(round);
  }

  lemma {:induction false} VotesBounds(voters: seq<Voter>, round: real -> real, account: string)
    requires IsRounding(round) && NoNegativeVotes(voters)
    ensures 0.0 <= VotesFor(voters, round, account)
    ensures !HasVotes(voters, account) ==> VotesFor(voters, round, account) == 0.0
  {
    forall v | v in voters && v.account == account
      ensures 0.0 <= ValidVotes(round)(v)
      ensures !HasVotes(voters, account) ==> ValidVotes(round)(v) == 0.0
    {
      var k :| 0 <= k < |voters| && voters[k] == v;
      ValidVotesBounds(v, round);
    }
  }

  lemma {:induction false} PowerBounds(voters: seq<Voter>, cap: real, round: real -> real, i: nat)
    requires IsRounding(round) && 0.0 <= cap && OnGrid(round, cap) && NoNegativeVotes(voters) && i < |voters|
    ensures 0.0 <= Pool(voters, cap, round).0[i]
    ensures !HasVotes(voters, Frame(voters, cap, round)[i].account) ==> Pool(voters, cap, round).0[i] == 0.0
  {
    PoolConserves(voters, cap, round);
    var k := BallotOrigin(voters, cap, round, i);
    assert voters[k] in voters;
    ValidVotesBounds(voters[k], round);
  }

  /** No target is negative, and a validator that is outside the algo set and has no
      votes of either kind that count is not given any stake. */
  lemma {:induction false} OnlyClaimsGetStake(
    p: Params, marked: seq<Candidate>, voters: seq<Voter>, msol: seq<Voter>, cap: real, round: real -> real, i: nat)
    requires ValidParams(p) && IsRounding(round) && 0.0 <= cap && OnGrid(round, cap)
    requires NoNegativeVotes(voters) && NoNegativeVotes(msol) && (forall c :: c in marked ==> 0.0 <= c.score)
    requires i < |voters| && SumReal(JoinedColumns(marked, voters, msol, cap, round).algoScore) != 0.0
    ensures var c, overflow := JoinedColumns(marked, voters, msol, cap, round), Pool(voters, cap, round).1;
      0.0 <= overflow &&
      var target, account := Targets(p, c, overflow, round).value[i], Frame(voters, cap, round)[i].account;
      && 0.0 <= target
      && (!InSet(marked, account) && !HasVotes(voters, account) && !HasVotes(msol, account) ==> target == 0.0)
  {
    var c, frame := JoinedColumns(marked, voters, msol, cap, round), Frame(voters, cap, round);
    PoolConserves(voters, cap, round);
    forall k | 0 <= k < |frame| ensures 0.0 <= c.power[k] && 0.0 <= c.msolVotes[k] && 0.0 <= c.algoScore[k] {
      PowerBounds(voters, cap, round, k);
      VotesBounds(msol, round, frame[k].account);
      ScoreBounds(marked, frame[k].account);
    }
    PowerBounds(voters, cap, round, i);
    VotesBounds(msol, round, frame[i].account);
    ScoreBounds(marked, frame[i].account);
    TargetBounds(p, c, Pool(voters, cap, round).1, round, i);
  }

  /** With the marks of the algo set, being in the set means being eligible with fewer
      than n eligible candidates that score more. */
  lemma {:induction false} InSetMeansSelected(marked: seq<Candidate>, n: nat, account: string)
    requires SelectsBest(marked, n)
    ensures InSet(marked, account) <==>
      exists c :: c in marked && c.account == account && c.eligible && |Filter(marked, BetterEligible(c.score))| < n
  {
    if InSet(marked, account) {
      var c :| c in marked && c.account == account && c.inSet;
      assert c.eligible && |Filter(marked, BetterEligible(c.score))| < n;
    }
  }

  ghost predicate OneCandidateEach(marked: seq<Candidate>) {
    forall i, j :: 0 <= i < j < |marked| ==> marked[i].account != marked[j].account
  }

  ghost predicate OneVoterEach(voters: seq<Voter>) {
    forall i, j :: 0 <= i < j < |voters| ==> voters[i].account != voters[j].account
  }

  lemma {:induction false} ScoreInSetIs(marked: seq<Candidate>, k: nat)
    requires OneCandidateEach(marked) && k < |marked|
    ensures ScoreInSet(marked, marked[k].account) == if marked[k].inSet then marked[k].score else 0.0
  {
    if k > 0 {
      assert marked[0].account != marked[k].account;
      ScoreInSetIs(marked[1..], k - 1);
    }
  }

  lemma {:induction false} VotesForIs(voters: seq<Voter>, round: real -> real, k: nat)
    requires IsRounding(round) && OneVoterEach(voters) && k < |voters|
    ensures VotesFor(voters, round, voters[k].account) == if voters[k].eligible then round(voters[k].votes) else 0.0
  {
    if k > 0 {
      assert voters[0].account != voters[k].account;
      VotesForIs(voters[1..], round, k - 1);
    } else {
      ValidVotesAre(voters[0], round);
    }
  }

  /** What the columns of a validator hold, on its candidacy and its votes of both kinds:
      its power lies between what the cap leaves of its eligible veMNDE votes and the cap,
      its mSOL votes count if they are eligible, and its score if it is in the set. */
  lemma {:induction false} ColumnsAre(
      marked: seq<Candidate>, voters: seq<Voter>, msol: seq<Voter>, cap: real, round: real -> real,
      i: nat, k: nat, l: nat, m: nat)
    requires IsRounding(round) && 0.0 <= cap && OnGrid(round, cap) && NoNegativeVotes(voters)
    requires OneCandidateEach(marked) && OneVoterEach(voters) && OneVoterEach(msol)
    requires i < |voters| && k < |marked| && l < |voters| && m < |msol|
    requires marked[k].account == voters[l].account == msol[m].account == Frame(voters, cap, round)[i].account
    ensures var c := JoinedColumns(marked, voters, msol, cap, round);
      var votes := if voters[l].eligible then round(voters[l].votes) else 0.0;
      && (if votes <= cap then votes else cap) <= c.power[i] <= cap
      && c.msolVotes[i] == (if msol[m].eligible then round(msol[m].votes) else 0.0)
      && c.algoScore[i] == (if marked[k].inSet then marked[k].score else 0.0)
  {
    var frame := Frame(voters, cap, round);
    PoolConserves(voters, cap, round);
    ScoreInSetIs(marked, k);
    VotesForIs(msol, round, m);
    var n := BallotOrigin(voters, cap, round, i);
    assert n == l;
    ValidVotesAre(voters[l], round);
  }
}
