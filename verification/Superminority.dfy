/** The superminority: the largest validators that together hold more than a third of
    the activated stake, and the flags every validator gets from it. */
module Superminority {
  import opened Sequences

  const U64_MAX: int := 0xFFFF_FFFF_FFFF_FFFF

  predicate Larger(a: nat, b: nat) { a >= b }

  /** How many of the stakes, taken in order, the accumulation looks at. */
  function Taken(stakes: seq<nat>, accumulated: nat, threshold: nat): (k: nat)
    ensures k <= |stakes| && (stakes != [] ==> 0 < k)
  {
    if stakes == [] then 0
    else if accumulated + stakes[0] > threshold then 1
    else 1 + Taken(stakes[1..], accumulated + stakes[0], threshold)
  }

  lemma {:induction false} StakeNonNegative(stakes: seq<nat>)
    ensures 0 <= SumInt(stakes)
  {
    if stakes != [] {
      StakeNonNegative(stakes[1..]);
    }
  }

  function TotalStake(stakes: seq<nat>): nat {
    StakeNonNegative(stakes);
    SumInt(stakes)
  }

  function Descending(stakes: seq<nat>): (r: seq<nat>)
    ensures |r| == |stakes|
  {
    StableSort(stakes, Larger)
  }

  /** The size of the superminority. */
  function Size(stakes: seq<nat>): (k: nat)
    ensures k <= |stakes| && (stakes != [] ==> 0 < k)
  {
    Taken(Descending(stakes), 0, TotalStake(stakes) / 3)
  }

  function LeastStake(stakes: seq<nat>): nat {
    if stakes == [] then 0 else Descending(stakes)[Size(stakes) - 1]
  }

  method MinimumSuperminorityStake(current: seq<nat>, delinquent: seq<nat>) returns (lastStake: nat)
    requires TotalStake(current + delinquent) <= U64_MAX
    ensures lastStake == LeastStake(current + delinquent)
  {
    var activatedStakes := current + delinquent;
    var total := TotalStake(activatedStakes);
    var threshold := total / 3;
    activatedStakes := StableSort(activatedStakes, Larger);

    var accumulated := 0;
    lastStake := 0;
    var i := 0;
    while i < |activatedStakes|
      invariant 0 <= i <= |activatedStakes|
      invariant i == 0 ==> lastStake == 0 && accumulated == 0
      invariant 0 < i ==> lastStake == activatedStakes[i - 1]
      invariant Taken(activatedStakes, 0, threshold) == i + Taken(activatedStakes[i..], accumulated, threshold)
    {
      accumulated := accumulated + activatedStakes[i];
      lastStake := activatedStakes[i];
      i := i + 1;
      if accumulated > threshold {
        break;
      }
    }
  }

  datatype Flags = Flags(superminority: bool, stakeToBecome: nat)

  function SaturatingSub(a: nat, b: nat): nat { if a >= b then a - b else 0 }

  /** The part of the snapshot loop that marks the validators. */
  method FlagValidators(current: seq<nat>, delinquent: seq<nat>) returns (flags: seq<Flags>)
    requires TotalStake(current + delinquent) <= U64_MAX
    ensures |flags| == |current| + |delinquent|
    ensures forall i :: 0 <= i < |flags| ==>
      var stake := (current + delinquent)[i];
      flags[i] == Flags(LeastStake(current + delinquent) <= stake,
        SaturatingSub(LeastStake(current + delinquent), stake))
    ensures forall i :: 0 <= i < |flags| ==> (flags[i].superminority <==> flags[i].stakeToBecome == 0)
    ensures forall i :: 0 <= i < |flags| ==>
      var stake, least := (current + delinquent)[i], LeastStake(current + delinquent);
      least <= stake + flags[i].stakeToBecome && (stake < least ==> stake + flags[i].stakeToBecome == least)
  {
    var minimum := MinimumSuperminorityStake(current, delinquent);
    var accounts := current + delinquent;
    flags := [];
    for i := 0 to |accounts|
      invariant |flags| == i
      invariant forall j :: 0 <= j < i ==>
        flags[j] == Flags(minimum <= accounts[j], SaturatingSub(minimum, accounts[j]))
    {
      flags := flags + [Flags(minimum <= accounts[i], SaturatingSub(minimum, accounts[i]))];
    }
  }

  /* A set of validators is a mask over the list of their stakes. */

  function Count(mask: seq<bool>): nat {
    if mask == [] then 0 else (if mask[0] then 1 else 0) + Count(mask[1..])
  }

  function Held(stakes: seq<nat>, mask: seq<bool>): nat
    requires |stakes| == |mask|
  {
    if mask == [] then 0 else (if mask[0] then stakes[0] else 0) + Held(stakes[1..], mask[1..])
  }

  ghost predicate OverAThird(part: int, whole: int) { 3 * part > whole }

  function Stake(x: nat): int { x }

  function ExcessOver(least: nat): nat -> int {
    (x: nat) => if x > least then x - least else 0
  }

  function AtLeast(least: nat): nat -> bool {
    (x: nat) => x >= least
  }

  function Above(least: nat): nat -> bool {
    (x: nat) => x > least
  }

  /** The stakes a set of m validators can hold are bounded by m times any value plus
      what all validators have in excess of it. */
  lemma {:induction false} HeldBound(stakes: seq<nat>, mask: seq<bool>, least: nat)
    requires |stakes| == |mask|
    ensures Held(stakes, mask) <= Count(mask) * least + SumInt(Map(ExcessOver(least), stakes))
  {
    if mask != [] {
      HeldBound(stakes[1..], mask[1..], least);
      assert (1 + Count(mask[1..])) * least == least + Count(mask[1..]) * least;
    }
  }

  /** The largest m validators reach that bound, for a value between the last one
      taken and the first one left. */
  lemma {:induction false} PrefixSum(sorted: seq<nat>, m: nat, least: nat)
    requires m <= |sorted|
    requires forall i :: 0 <= i < m ==> sorted[i] >= least
    requires forall i :: m <= i < |sorted| ==> sorted[i] <= least
    ensures TotalStake(sorted[..m]) == m * least + SumInt(Map(ExcessOver(least), sorted))
  {
    if m == 0 {
      if sorted != [] {
        PrefixSum(sorted[1..], 0, least);
        assert sorted[..0] == sorted[1..][..0];
      }
    } else {
      PrefixSum(sorted[1..], m - 1, least);
      assert sorted[..m] == [sorted[0]] + sorted[1..][..m - 1];
      assert m * least == least + (m - 1) * least;
    }
  }

  lemma {:induction false} MapStakes(stakes: seq<nat>)
    ensures Map(Stake, stakes) == stakes
  {
  }

  lemma {:induction false} TotalSort(stakes: seq<nat>)
    ensures TotalStake(Descending(stakes)) == TotalStake(stakes)
  {
    SumIntSort(stakes, Larger, Stake);
    MapStakes(stakes);
    MapStakes(Descending(stakes));
  }

  lemma {:induction false} PrefixTotal(stakes: seq<nat>, k: nat)
    requires 0 < k <= |stakes|
    ensures TotalStake(stakes[..k]) == stakes[0] + TotalStake(stakes[1..][..k - 1])
  {
    assert stakes[..k][1..] == stakes[1..][..k - 1];
  }

  /** The accumulation stops at the first prefix over the threshold. */
  lemma {:induction false} TakenSpec(stakes: seq<nat>, accumulated: nat, threshold: nat)
    requires stakes != []
    ensures var k := Taken(stakes, accumulated, threshold);
      k == 1 || accumulated + TotalStake(stakes[..k - 1]) <= threshold
    ensures var k := Taken(stakes, accumulated, threshold);
      accumulated + TotalStake(stakes) > threshold ==> accumulated + TotalStake(stakes[..k]) > threshold
  {
    var k := Taken(stakes, accumulated, threshold);
    if accumulated + stakes[0] > threshold {
      PrefixTotal(stakes, 1);
    } else {
      assert TotalStake(stakes) == stakes[0] + TotalStake(stakes[1..]);
      if stakes[1..] != [] {
        TakenSpec(stakes[1..], accumulated + stakes[0], threshold);
        PrefixTotal(stakes, k);
        PrefixTotal(stakes, k - 1);
      }
    }
  }

  /** The stakes in descending order, and how the chosen prefix sits in them. */
  lemma {:induction false} SortedFacts(stakes: seq<nat>)
    requires stakes != []
    ensures var sorted, k := Descending(stakes), Size(stakes);
      && (forall i, j :: 0 <= i < j < |sorted| ==> sorted[i] >= sorted[j])
      && TotalStake(sorted) == TotalStake(stakes)
      && !OverAThird(TotalStake(sorted[..k - 1]), TotalStake(stakes))
      && (0 < TotalStake(stakes) ==> OverAThird(TotalStake(sorted[..k]), TotalStake(stakes)))
      && LeastStake(stakes) == sorted[k - 1]
  {
    var sorted, k := Descending(stakes), Size(stakes);
    assert TotalPreorder(Larger);
    StableSortSorted(stakes, Larger);
    TotalSort(stakes);
    TakenSpec(sorted, 0, TotalStake(stakes) / 3);
    if k == 1 {
      assert sorted[..0] == [];
    }
  }

  lemma {:induction false} ScaleCount(m: nat, k: nat, least: nat)
    requires m <= k
    ensures m * least <= k * least
  {
  }

  /** Greedy is optimal: m validators hold at most what the m largest hold. */
  lemma {:induction false} GreedyIsBest(stakes: seq<nat>, mask: seq<bool>, m: nat)
    requires |mask| == |stakes| && Count(mask) <= m <= |stakes|
    requires forall i, j :: 0 <= i < j < |stakes| ==> Descending(stakes)[i] >= Descending(stakes)[j]
    ensures Held(stakes, mask) <= TotalStake(Descending(stakes)[..m])
  {
    var sorted := Descending(stakes);
    var least := if m < |stakes| then sorted[m] else 0;
    HeldBound(stakes, mask, least);
    SumIntSort(stakes, Larger, ExcessOver(least));
    PrefixSum(sorted, m, least);
    ScaleCount(Count(mask), m, least);
  }

  /** No set of fewer validators holds more than a third of the stake. */
  lemma {:induction false} NoSmallerSet(stakes: seq<nat>, mask: seq<bool>)
    requires |mask| == |stakes| && OverAThird(Held(stakes, mask), TotalStake(stakes))
    ensures Size(stakes) <= Count(mask)
  {
    if stakes != [] && Count(mask) < Size(stakes) {
      SortedFacts(stakes);
      GreedyIsBest(stakes, mask, Size(stakes) - 1);
    }
  }

  /* A mask over the sorted stakes is a mask over the stakes as they came. */

  lemma {:induction false} MaskThroughInsert(x: nat, s: seq<nat>, sortedMask: seq<bool>) returns (mask: seq<bool>)
    requires |sortedMask| == |s| + 1
    ensures |mask| == |s| + 1 && Count(mask) == Count(sortedMask)
    ensures Held([x] + s, mask) == Held(Insert(x, s, Larger), sortedMask)
  {
    if s == [] || Larger(x, s[0]) {
      mask := sortedMask;
      assert Insert(x, s, Larger) == [x] + s;
    } else {
      var rest := MaskThroughInsert(x, s[1..], sortedMask[1..]);
      mask := [rest[0], sortedMask[0]] + rest[1..];
      assert mask[1..][1..] == rest[1..] && ([x] + s)[1..][1..] == ([x] + s[1..])[1..];
      assert Insert(x, s, Larger)[1..] == Insert(x, s[1..], Larger);
    }
  }

  lemma {:induction false} MaskThroughSort(stakes: seq<nat>, sortedMask: seq<bool>) returns (mask: seq<bool>)
    requires |sortedMask| == |stakes|
    ensures |mask| == |stakes| && Count(mask) == Count(sortedMask)
    ensures Held(stakes, mask) == Held(Descending(stakes), sortedMask)
  {
    if stakes == [] {
      mask := [];
    } else {
      var inserted := MaskThroughInsert(stakes[0], Descending(stakes[1..]), sortedMask);
      var rest := MaskThroughSort(stakes[1..], inserted[1..]);
      mask := [inserted[0]] + rest;
      assert ([stakes[0]] + Descending(stakes[1..]))[1..] == Descending(stakes[1..]);
    }
  }

  lemma {:induction false} PrefixMask(stakes: seq<nat>, k: nat) returns (mask: seq<bool>)
    requires k <= |stakes|
    ensures |mask| == |stakes| && Count(mask) == k && Held(stakes, mask) == TotalStake(stakes[..k])
  {
    if stakes == [] {
      mask := [];
    } else if k == 0 {
      var rest := PrefixMask(stakes[1..], 0);
      mask := [false] + rest;
      assert stakes[..0] == stakes[1..][..0];
    } else {
      var rest := PrefixMask(stakes[1..], k - 1);
      mask := [true] + rest;
      assert stakes[..k] == [stakes[0]] + stakes[1..][..k - 1];
    }
  }

  /** A set of that many validators exists that holds more than a third; with
      NoSmallerSet, Size is the least number of validators that do. */
  lemma {:induction false} SizeIsReached(stakes: seq<nat>) returns (mask: seq<bool>)
    requires 0 < TotalStake(stakes)
    ensures |mask| == |stakes| && Count(mask) == Size(stakes)
    ensures OverAThird(Held(stakes, mask), TotalStake(stakes))
  {
    SortedFacts(stakes);
    var prefix := PrefixMask(Descending(stakes), Size(stakes));
    mask := MaskThroughSort(stakes, prefix);
  }

  /* The flags. */

  function MaskOf(stakes: seq<nat>, p: nat -> bool): (mask: seq<bool>)
    ensures |mask| == |stakes|
  {
    if stakes == [] then [] else [p(stakes[0])] + MaskOf(stakes[1..], p)
  }

  lemma {:induction false} MaskOfInsert(x: nat, s: seq<nat>, p: nat -> bool)
    ensures Count(MaskOf(Insert(x, s, Larger), p)) == (if p(x) then 1 else 0) + Count(MaskOf(s, p))
    ensures Held(Insert(x, s, Larger), MaskOf(Insert(x, s, Larger), p)) ==
      (if p(x) then x else 0) + Held(s, MaskOf(s, p))
  {
    if s == [] || Larger(x, s[0]) {
      assert Insert(x, s, Larger)[1..] == s;
    } else {
      MaskOfInsert(x, s[1..], p);
      assert Insert(x, s, Larger)[1..] == Insert(x, s[1..], Larger);
    }
  }

  lemma {:induction false} MaskOfSort(stakes: seq<nat>, p: nat -> bool)
    ensures Count(MaskOf(Descending(stakes), p)) == Count(MaskOf(stakes, p))
    ensures Held(Descending(stakes), MaskOf(Descending(stakes), p)) == Held(stakes, MaskOf(stakes, p))
  {
    if stakes != [] {
      MaskOfSort(stakes[1..], p);
      MaskOfInsert(stakes[0], Descending(stakes[1..]), p);
    }
  }

  /** In descending order the validators with some property of large stakes are a
      prefix. */
  lemma {:induction false} PrefixOf(sorted: seq<nat>, p: nat -> bool, m: nat)
    requires m <= |sorted|
    requires forall i :: 0 <= i < |sorted| ==> (p(sorted[i]) <==> i < m)
    ensures Count(MaskOf(sorted, p)) == m && Held(sorted, MaskOf(sorted, p)) == TotalStake(sorted[..m])
  {
    if sorted != [] {
      if m == 0 {
        PrefixOf(sorted[1..], p, 0);
        assert sorted[..0] == sorted[1..][..0];
      } else {
        PrefixOf(sorted[1..], p, m - 1);
        assert sorted[..m] == [sorted[0]] + sorted[1..][..m - 1];
      }
    }
  }

  lemma {:induction false} Boundary(sorted: seq<nat>, least: nat) returns (m: nat)
    requires forall i, j :: 0 <= i < j < |sorted| ==> sorted[i] >= sorted[j]
    ensures m <= |sorted| && forall i :: 0 <= i < |sorted| ==> (sorted[i] >= least <==> i < m)
  {
    if sorted == [] || sorted[0] < least {
      m := 0;
    } else {
      m := Boundary(sorted[1..], least);
      m := m + 1;
      assert forall i :: 1 <= i < |sorted| ==> sorted[i] == sorted[1..][i - 1];
    }
  }

  lemma {:induction false} PrefixMonotone(stakes: seq<nat>, i: nat, j: nat)
    requires i <= j <= |stakes|
    ensures TotalStake(stakes[..i]) <= TotalStake(stakes[..j])
  {
    assert stakes[..j] == stakes[..i] + stakes[i..j];
    StakeNonNegative(stakes[i..j]);
    SumIntConcat(stakes[..i], stakes[i..j]);
  }

  /** The flagged validators are a prefix of the sorted ones that includes the
      superminority. */
  lemma {:induction false} FlaggedPrefix(stakes: seq<nat>) returns (m: nat)
    requires stakes != []
    ensures var sorted, least := Descending(stakes), LeastStake(stakes);
      var flagged := MaskOf(stakes, AtLeast(least));
      && Size(stakes) <= m <= |sorted| && sorted[m - 1] == least
      && Count(flagged) == m && Held(stakes, flagged) == TotalStake(sorted[..m])
  {
    var sorted, least := Descending(stakes), LeastStake(stakes);
    SortedFacts(stakes);
    m := Boundary(sorted, least);
    PrefixOf(sorted, AtLeast(least), m);
    MaskOfSort(stakes, AtLeast(least));
  }

  /** The validators strictly above the returned stake hold at most a third; those
      flagged hold more. */
  lemma {:induction false} FlagsStraddleAThird(stakes: seq<nat>)
    requires 0 < TotalStake(stakes)
    ensures var least := LeastStake(stakes);
      && !OverAThird(Held(stakes, MaskOf(stakes, Above(least))), TotalStake(stakes))
      && OverAThird(Held(stakes, MaskOf(stakes, AtLeast(least))), TotalStake(stakes))
  {
    var sorted, k, least := Descending(stakes), Size(stakes), LeastStake(stakes);
    SortedFacts(stakes);
    var m := FlaggedPrefix(stakes);
    PrefixMonotone(sorted, k, m);
    var n := Boundary(sorted, least + 1);
    PrefixOf(sorted, Above(least), n);
    MaskOfSort(stakes, Above(least));
    PrefixMonotone(sorted, n, k - 1);
  }

  lemma {:induction false} LastOfPrefix(stakes: seq<nat>, m: nat)
    requires 0 < m <= |stakes|
    ensures TotalStake(stakes[..m]) == TotalStake(stakes[..m - 1]) + stakes[m - 1]
  {
    assert stakes[..m] == stakes[..m - 1] + [stakes[m - 1]];
    SumIntConcat(stakes[..m - 1], [stakes[m - 1]]);
  }

  /** The flags mark a smallest such set exactly when the flagged validators would
      lose their third with one validator of the returned stake less; otherwise ties
      make the flagged set larger than the superminority. */
  lemma {:induction false} FlagsMarkSmallestSet(stakes: seq<nat>)
    requires 0 < TotalStake(stakes)
    ensures var least := LeastStake(stakes);
      var flagged := MaskOf(stakes, AtLeast(least));
      && Size(stakes) <= Count(flagged)
      && (Count(flagged) == Size(stakes) <==> !OverAThird(Held(stakes, flagged) - least, TotalStake(stakes)))
  {
    SortedFacts(stakes);
    var m := FlaggedPrefix(stakes);
    PrefixDecides(Descending(stakes), Size(stakes), m, TotalStake(stakes));
  }

  lemma {:induction false} HeldMonotone(stakes: seq<nat>, p: nat -> bool, q: nat -> bool)
    requires forall x :: p(x) ==> q(x)
    ensures Held(stakes, MaskOf(stakes, p)) <= Held(stakes, MaskOf(stakes, q))
  {
    if stakes != [] {
      HeldMonotone(stakes[1..], p, q);
    }
  }

  /** A stake at which the validators above hold at most a third, while it and they hold
      more than a third even without one validator of that stake. */
  ghost predicate TieAtTheThird(stakes: seq<nat>, x: nat) {
    && !OverAThird(Held(stakes, MaskOf(stakes, Above(x))), TotalStake(stakes))
    && OverAThird(Held(stakes, MaskOf(stakes, AtLeast(x))) - x, TotalStake(stakes))
  }

  /** The flags mark a smallest such set exactly when no stake of the validators is such
      a tie. */
  lemma {:induction false} FlagsSmallestUnlessTied(stakes: seq<nat>)
    requires 0 < TotalStake(stakes)
    ensures Count(MaskOf(stakes, AtLeast(LeastStake(stakes)))) == Size(stakes)
      <==> forall x :: x in stakes ==> !TieAtTheThird(stakes, x)
  {
    var least := LeastStake(stakes);
    SortedFacts(stakes);
    FlagsMarkSmallestSet(stakes);
    FlagsStraddleAThird(stakes);
    StableSortMember(stakes, Larger, least);
    assert least in Descending(stakes);
    forall x | x in stakes && x != least ensures !TieAtTheThird(stakes, x) {
      if x < least {
        HeldMonotone(stakes, AtLeast(least), Above(x));
      } else {
        HeldMonotone(stakes, AtLeast(x), Above(least));
      }
    }
  }

  lemma {:induction false} PrefixDecides(sorted: seq<nat>, k: nat, m: nat, total: nat)
    requires 0 < k <= m <= |sorted|
    requires !OverAThird(TotalStake(sorted[..k - 1]), total) && OverAThird(TotalStake(sorted[..k]), total)
    ensures m == k <==> !OverAThird(TotalStake(sorted[..m]) - sorted[m - 1], total)
  {
    LastOfPrefix(sorted, m);
    if k < m {
      PrefixMonotone(sorted, k, m - 1);
    }
  }

  /** Four equal validators: two already hold more than a third, all four are
      flagged. */
  lemma {:induction false} TiesFlagTooMany()
    ensures Size([2, 2, 2, 2]) == 2 && LeastStake([2, 2, 2, 2]) == 2
    ensures Count(MaskOf([2, 2, 2, 2], AtLeast(LeastStake([2, 2, 2, 2])))) == 4
  {
    var s: seq<nat> := [2, 2, 2, 2];
    assert s[1..] == [2, 2, 2] && s[1..][1..] == [2, 2] && s[1..][1..][1..] == [2];
    assert Descending([2]) == [2] && Descending([2, 2]) == [2, 2] && Descending([2, 2, 2]) == [2, 2, 2];
    assert Descending(s) == s;
    assert TotalStake(s) == 8;
    assert Taken(s, 0, 2) == 1 + Taken(s[1..], 2, 2);
    assert Taken(s[1..], 2, 2) == 1;
    var p := AtLeast(2);
    assert MaskOf(s, p) == [true, true, true, true];
    assert Count([true, true, true, true]) == 1 + Count([true, true, true]);
    assert Count([true, true, true]) == 1 + Count([true, true]);
  }
}
