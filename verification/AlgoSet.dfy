/** The selection of the validators that receive algorithmic stake: the best
    eligible scores, with everybody who ties with the last one selected. */
module AlgoSet {
  import opened Sequences
  import opened Wrappers

  datatype Candidate = Candidate(account: string, score: real, eligible: bool, rank: nat, inSet: bool)

  function Better(score: real): Candidate -> bool {
    (c: Candidate) => c.score > score
  }

  function BetterEligible(score: real): Candidate -> bool {
    (c: Candidate) => c.eligible && c.score > score
  }

  predicate Eligible(c: Candidate) { c.eligible }

  predicate Selected(c: Candidate) { c.inSet }

  predicate RankedBefore(a: Candidate, b: Candidate) { a.rank <= b.rank }

  /** Competition ranking: equal scores share the best of their ranks. */
  function WithRank(all: seq<Candidate>): Candidate -> Candidate {
    (c: Candidate) => c.(rank := 1 + |Filter(all, Better(c.score))|)
  }

  function WithMark(minScore: Option<real>): Candidate -> Candidate {
    (c: Candidate) => c.(inSet := c.eligible && minScore.Some? && c.score >= minScore.value)
  }

  function Head<T>(s: seq<T>, n: nat): seq<T> {
    if n < |s| then s[..n] else s
  }

  /** The candidates in the order of their ranks. */
  function Ordered(candidates: seq<Candidate>): (r: seq<Candidate>)
    ensures |r| == |candidates|
  {
    StableSort(Map(WithRank(candidates), candidates), RankedBefore)
  }

  /** The rule the selection follows: an eligible candidate is in the set when fewer
      than n eligible candidates score more. */
  ghost predicate SelectsBest(frame: seq<Candidate>, n: nat) {
    forall c :: c in frame ==> (c.inSet <==> c.eligible && |Filter(frame, BetterEligible(c.score))| < n)
  }

  ghost predicate ByScore(frame: seq<Candidate>) {
    forall i, j :: 0 <= i < j < |frame| ==> frame[i].score >= frame[j].score
  }

  ghost predicate IsLowest(s: seq<Candidate>, lowest: Option<real>) {
    && (lowest.None? <==> s == [])
    && (lowest.Some? ==>
          (exists c :: c in s && c.score == lowest.value) && forall c :: c in s ==> lowest.value <= c.score)
  }

  method LowestScore(s: seq<Candidate>) returns (lowest: Option<real>)
    ensures IsLowest(s, lowest)
  {
    lowest := None;
    for i := 0 to |s|
      invariant IsLowest(s[..i], lowest)
    {
      assert s[..i + 1] == s[..i] + [s[i]];
      if lowest.None? || s[i].score < lowest.value {
        assert s[i] in s[..i + 1];
        lowest := Some(s[i].score);
      }
    }
    assert s[..|s|] == s;
  }

  /** Lines 142-151 of the script.  The script takes the minimum over an empty head
      to be infinite, so nobody is marked then. */
  method MarkAlgoSet(candidates: seq<Candidate>, n: nat) returns (frame: seq<Candidate>)
    ensures |frame| == |candidates|
    ensures forall i :: 0 <= i < |frame| ==> frame[i] == Ordered(candidates)[i].(inSet := frame[i].inSet)
    ensures ByScore(frame) && SelectsBest(frame, n)
  {
    var ranked := Map(WithRank(candidates), candidates);
    var ordered := StableSort(ranked, RankedBefore);
    var head := Head(Filter(ordered, Eligible), n);
    var minScore := LowestScore(head);
    frame := Map(WithMark(minScore), ordered);
    OrderedByScore(candidates);
    MarksSelectBest(ordered, n, minScore);
  }

  lemma {:induction false} BetterMonotone(s: seq<Candidate>, x: real, y: real)
    requires x >= y
    ensures |Filter(s, Better(x))| <= |Filter(s, Better(y))|
    ensures x > y && (exists c :: c in s && c.score == x) ==> |Filter(s, Better(x))| < |Filter(s, Better(y))|
  {
    if s != [] {
      BetterMonotone(s[1..], x, y);
      if x > y && exists c :: c in s && c.score == x {
        var c :| c in s && c.score == x;
        assert c == s[0] || c in s[1..];
      }
    }
  }

  lemma {:induction false} OrderedByScore(candidates: seq<Candidate>)
    ensures ByScore(Ordered(candidates))
  {
    var ranked := Map(WithRank(candidates), candidates);
    var ordered := Ordered(candidates);
    assert TotalPreorder(RankedBefore);
    StableSortSorted(ranked, RankedBefore);
    forall i, j | 0 <= i < j < |ordered| ensures ordered[i].score >= ordered[j].score {
      StableSortMember(ranked, RankedBefore, ordered[i]);
      StableSortMember(ranked, RankedBefore, ordered[j]);
      var k :| 0 <= k < |ranked| && ranked[k] == ordered[i];
      var l :| 0 <= l < |ranked| && ranked[l] == ordered[j];
      assert candidates[l] in candidates && candidates[l].score == ordered[j].score;
      assert RankedBefore(ordered[i], ordered[j]);
      if ordered[i].score < ordered[j].score {
        BetterMonotone(candidates, ordered[j].score, ordered[i].score);
      }
    }
  }

  lemma {:induction false} FilterInOrder(s: seq<Candidate>, p: Candidate -> bool)
    requires ByScore(s)
    ensures ByScore(Filter(s, p))
  {
    if s != [] {
      FilterInOrder(s[1..], p);
      var f := Filter(s[1..], p);
      forall i | 0 <= i < |f| ensures s[0].score >= f[i].score {
        FilterMember(s[1..], p, f[i]);
        var k :| 0 <= k < |s[1..]| && s[1..][k] == f[i];
      }
    }
  }

  lemma {:induction false} FilterTwice(s: seq<Candidate>, x: real)
    ensures Filter(Filter(s, Eligible), Better(x)) == Filter(s, BetterEligible(x))
  {
    if s != [] {
      FilterTwice(s[1..], x);
    }
  }

  /* In a list in the order of the scores, the better ones come first. */

  lemma {:induction false} BetterAtLeast(s: seq<Candidate>, x: real, k: nat)
    requires ByScore(s) && k <= |s| && (0 < k ==> s[k - 1].score > x)
    ensures k <= |Filter(s, Better(x))|
  {
    assert s == s[..k] + s[k..];
    FilterConcat(s[..k], s[k..], Better(x));
    FilterAll(s[..k], Better(x));
  }

  lemma {:induction false} BetterAtMost(s: seq<Candidate>, x: real, k: nat)
    requires ByScore(s) && k <= |s| && (k < |s| ==> s[k].score <= x)
    ensures |Filter(s, Better(x))| <= k
  {
    assert s == s[..k] + s[k..];
    FilterConcat(s[..k], s[k..], Better(x));
    FilterAtMost(s[..k], Better(x));
    FilterNone(s[k..], Better(x));
  }

  lemma {:induction false} MarkedFilter(s: seq<Candidate>, minScore: Option<real>, x: real)
    ensures |Filter(Map(WithMark(minScore), s), BetterEligible(x))| == |Filter(s, BetterEligible(x))|
  {
    if s != [] {
      MarkedFilter(s[1..], minScore, x);
    }
  }

  lemma {:induction false} MarksSelectBest(ordered: seq<Candidate>, n: nat, minScore: Option<real>)
    requires ByScore(ordered) && IsLowest(Head(Filter(ordered, Eligible), n), minScore)
    ensures ByScore(Map(WithMark(minScore), ordered)) && SelectsBest(Map(WithMark(minScore), ordered), n)
  {
    var frame := Map(WithMark(minScore), ordered);
    forall c | c in frame ensures c.inSet <==> c.eligible && |Filter(frame, BetterEligible(c.score))| < n {
      var i :| 0 <= i < |frame| && frame[i] == c;
      MarkedFilter(ordered, minScore, c.score);
      FilterTwice(ordered, c.score);
      FilterMember(ordered, Eligible, ordered[i]);
      if c.eligible {
        HeadHasBest(ordered, n, minScore, ordered[i]);
      }
    }
  }

  lemma {:induction false} HeadHasBest(ordered: seq<Candidate>, n: nat, minScore: Option<real>, c: Candidate)
    requires ByScore(ordered) && IsLowest(Head(Filter(ordered, Eligible), n), minScore)
    requires c in Filter(ordered, Eligible)
    ensures (minScore.Some? && c.score >= minScore.value) <==> |Filter(Filter(ordered, Eligible), Better(c.score))| < n
  {
    var e := Filter(ordered, Eligible);
    FilterInOrder(ordered, Eligible);
    var k := |Head(e, n)|;
    if k > 0 {
      assert e[k - 1] == Head(e, n)[k - 1];
      var low :| low in Head(e, n) && low.score == minScore.value;
      var i :| 0 <= i < k && Head(e, n)[i] == low;
      assert e[i] == low;
      assert minScore.value == e[k - 1].score;
      var j :| 0 <= j < |e| && e[j] == c;
      if c.score >= minScore.value {
        BetterAtMost(e, c.score, k - 1);
      } else {
        BetterAtLeast(e, c.score, k);
      }
    }
  }

  /* What the rule means for the set as a whole. */

  /** Every eligible candidate left out scores strictly less than everyone in. */
  lemma {:induction false} LeftOutScoreLess(frame: seq<Candidate>, n: nat, out: Candidate, chosen: Candidate)
    requires SelectsBest(frame, n) && out in frame && chosen in frame
    requires out.eligible && !out.inSet && chosen.inSet
    ensures out.score < chosen.score
  {
    if out.score >= chosen.score {
      BetterEligibleMonotone(frame, out.score, chosen.score);
    }
  }

  lemma {:induction false} BetterEligibleMonotone(s: seq<Candidate>, x: real, y: real)
    requires x >= y
    ensures |Filter(s, BetterEligible(x))| <= |Filter(s, BetterEligible(y))|
  {
    if s != [] {
      BetterEligibleMonotone(s[1..], x, y);
    }
  }

  lemma {:induction false} SelectedAmongEligible(s: seq<Candidate>)
    requires forall c :: c in s && c.inSet ==> c.eligible
    ensures Filter(s, Selected) == Filter(Filter(s, Eligible), Selected)
  {
    if s != [] {
      SelectedAmongEligible(s[1..]);
    }
  }

  /** The set is as large as asked for, or holds every eligible candidate. */
  lemma {:induction false} SetIsLargeEnough(frame: seq<Candidate>, n: nat)
    requires ByScore(frame) && SelectsBest(frame, n)
    ensures |Filter(frame, Selected)| >= n || |Filter(frame, Selected)| == |Filter(frame, Eligible)|
  {
    var e := Filter(frame, Eligible);
    var h := Head(e, n);
    FilterInOrder(frame, Eligible);
    SelectedAmongEligible(frame);
    forall i | 0 <= i < |h| ensures Selected(h[i]) {
      var c := e[i];
      FilterMember(frame, Eligible, c);
      BetterAtMost(e, c.score, i);
      FilterTwice(frame, c.score);
    }
    FilterAll(h, Selected);
    assert e == h + e[|h|..];
    FilterConcat(h, e[|h|..], Selected);
    FilterAtMost(e, Selected);
  }

  /** Without the members that tie with the lowest one, fewer than n remain, so only
      ties can make the set larger than asked for. */
  lemma {:induction false} OnlyTiesExceed(frame: seq<Candidate>, n: nat, lowest: Candidate)
    requires SelectsBest(frame, n) && lowest in frame && lowest.inSet
    ensures |Filter(Filter(frame, Selected), Better(lowest.score))| < n
  {
    SelectedBetter(frame, lowest.score);
  }

  lemma {:induction false} SelectedBetter(s: seq<Candidate>, x: real)
    requires forall c :: c in s && c.inSet ==> c.eligible
    ensures |Filter(Filter(s, Selected), Better(x))| <= |Filter(s, BetterEligible(x))|
  {
    if s != [] {
      SelectedBetter(s[1..], x);
    }
  }

  /* The frame: the candidates, ranked. */

  function Indicator(p: Candidate -> bool): Candidate -> int {
    (c: Candidate) => if p(c) then 1 else 0
  }

  lemma {:induction false} CountFilter(s: seq<Candidate>, p: Candidate -> bool)
    ensures |Filter(s, p)| == SumInt(Map(Indicator(p), s))
  {
    if s != [] {
      CountFilter(s[1..], p);
    }
  }

  lemma {:induction false} CountOrdered(s: seq<Candidate>, p: Candidate -> bool)
    ensures |Filter(StableSort(s, RankedBefore), p)| == |Filter(s, p)|
  {
    CountFilter(s, p);
    CountFilter(StableSort(s, RankedBefore), p);
    SumIntSort(s, RankedBefore, Indicator(p));
  }

  /** A candidate as it came, without rank and mark. */
  function Plain(c: Candidate): Candidate { c.(rank := 0, inSet := false) }

  function IsPlain(x: Candidate): Candidate -> bool {
    (c: Candidate) => Plain(c) == Plain(x)
  }

  lemma {:induction false} RankedCount(all: seq<Candidate>, s: seq<Candidate>, p: Candidate -> bool)
    requires forall c, d :: Plain(c) == Plain(d) ==> p(c) == p(d)
    ensures |Filter(Map(WithRank(all), s), p)| == |Filter(s, p)|
  {
    if s != [] {
      RankedCount(all, s[1..], p);
      assert Plain(WithRank(all)(s[0])) == Plain(s[0]);
    }
  }

  /** The frame holds every candidate as often as it came. */
  lemma {:induction false} FrameHasCandidates(candidates: seq<Candidate>, x: Candidate)
    ensures |Filter(Ordered(candidates), IsPlain(x))| == |Filter(candidates, IsPlain(x))|
  {
    CountOrdered(Map(WithRank(candidates), candidates), IsPlain(x));
    RankedCount(candidates, candidates, IsPlain(x));
  }

  /** The rank of a candidate is the position, counted from one, of the first in the
      frame with its score. */
  lemma {:induction false} RankIsPosition(candidates: seq<Candidate>, i: nat)
    requires i < |candidates|
    ensures var frame := Ordered(candidates);
      var r := frame[i].rank;
      && 1 <= r <= i + 1 && frame[r - 1].score == frame[i].score
      && (1 < r ==> frame[r - 2].score > frame[i].score)
  {
    var ranked, frame := Map(WithRank(candidates), candidates), Ordered(candidates);
    StableSortMember(ranked, RankedBefore, frame[i]);
    var k :| 0 <= k < |ranked| && ranked[k] == frame[i];
    var x := frame[i].score;
    assert frame[i].rank == 1 + |Filter(candidates, Better(x))|;
    CountOrdered(ranked, Better(x));
    RankedCount(candidates, candidates, Better(x));
    OrderedByScore(candidates);
    FirstOfScore(frame, i);
  }

  lemma {:induction false} FirstOfScore(frame: seq<Candidate>, i: nat)
    requires ByScore(frame) && i < |frame|
    ensures var n := |Filter(frame, Better(frame[i].score))|;
      && n <= i && frame[n].score == frame[i].score
      && (0 < n ==> frame[n - 1].score > frame[i].score)
  {
    var x := frame[i].score;
    var n := |Filter(frame, Better(x))|;
    BetterAtMost(frame, x, i);
    if frame[n].score > x {
      BetterAtLeast(frame, x, n + 1);
    }
    if 0 < n && frame[n - 1].score <= x {
      BetterAtMost(frame, x, n - 1);
    }
  }
}
