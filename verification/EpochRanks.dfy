/** The ranks of validators within each epoch by some statistic: the statistics are
    collected by epoch, sorted, and the position is written back as a rank that ties
    share. */
module EpochRanks {
  import opened Sequences
  import opened Wrappers

  /** One epoch of one validator: the statistic that is ranked, and its rank. */
  datatype EpochStats = EpochStats(epoch: nat, value: int, rank: Option<nat>)

  datatype Standing = Standing(voteAccount: string, value: int)

  type Records = map<string, seq<EpochStats>>

  predicate Lower(a: Standing, b: Standing) { a.value <= b.value }

  ghost predicate HasEntry(stats: seq<EpochStats>, epoch: nat, value: int) {
    exists i :: 0 <= i < |stats| && stats[i].epoch == epoch && stats[i].value == value
  }

  ghost predicate OnePerEpoch(stats: seq<EpochStats>) {
    forall i, j :: 0 <= i < j < |stats| ==> stats[i].epoch != stats[j].epoch
  }

  ghost predicate ValidRecords(records: Records) {
    forall a :: a in records ==> OnePerEpoch(records[a])
  }

  /** The validators that do at least this well in an epoch. */
  ghost function AtLeast(records: Records, epoch: nat, value: int): set<string> {
    set a | a in records && exists i ::
      0 <= i < |records[a]| && records[a][i].epoch == epoch && records[a][i].value >= value
  }

  ghost function WithRank(records: Records, s: EpochStats): EpochStats {
    s.(rank := Some(|AtLeast(records, s.epoch, s.value)|))
  }

  function Of(byEpoch: map<nat, seq<Standing>>, epoch: nat): seq<Standing> {
    if epoch in byEpoch then byEpoch[epoch] else []
  }

  /** What one validator contributes to an epoch. */
  function Contribution(a: string, stats: seq<EpochStats>, epoch: nat): seq<Standing> {
    if stats == [] then []
    else
      var last := stats[|stats| - 1];
      Contribution(a, stats[..|stats| - 1], epoch) + if last.epoch == epoch then [Standing(a, last.value)] else []
  }

  ghost predicate DistinctAccounts(s: seq<Standing>) {
    forall i, j :: 0 <= i < j < |s| ==> s[i].voteAccount != s[j].voteAccount
  }

  /** The standings of an epoch list the validators done, each with its value. */
  ghost predicate Lists(s: seq<Standing>, records: Records, done: set<string>, epoch: nat) {
    && DistinctAccounts(s)
    && forall x :: x in s <==>
      x.voteAccount in done && x.voteAccount in records && HasEntry(records[x.voteAccount], epoch, x.value)
  }

  ghost predicate AddsAt(
      r: map<nat, seq<Standing>>, byEpoch: map<nat, seq<Standing>>, a: string, stats: seq<EpochStats>, e: nat) {
    && Of(r, e) == Of(byEpoch, e) + Contribution(a, stats, e)
    && (e in r <==> e in byEpoch || Contribution(a, stats, e) != [])
  }

  ghost predicate Adds(
      r: map<nat, seq<Standing>>, byEpoch: map<nat, seq<Standing>>, a: string, stats: seq<EpochStats>) {
    forall e :: AddsAt(r, byEpoch, a, stats, e)
  }

  function Pushed(r: map<nat, seq<Standing>>, a: string, s: EpochStats): map<nat, seq<Standing>> {
    r[s.epoch := Of(r, s.epoch) + [Standing(a, s.value)]]
  }

  lemma {:induction false} AddsOneAt(
      r: map<nat, seq<Standing>>, byEpoch: map<nat, seq<Standing>>, a: string, stats: seq<EpochStats>, i: nat, e: nat)
    requires i < |stats| && AddsAt(r, byEpoch, a, stats[..i], e)
    ensures AddsAt(Pushed(r, a, stats[i]), byEpoch, a, stats[..i + 1], e)
  {
    assert stats[..i + 1][..i] == stats[..i];
  }

  method AddAccount(
      byEpoch: map<nat, seq<Standing>>, a: string, stats: seq<EpochStats>) returns (r: map<nat, seq<Standing>>)
    ensures Adds(r, byEpoch, a, stats)
  {
    r := byEpoch;
    for i := 0 to |stats|
      invariant Adds(r, byEpoch, a, stats[..i])
    {
      var s := stats[i];
      ghost var after, prefix := Pushed(r, a, s), stats[..i + 1];
      forall e ensures AddsAt(after, byEpoch, a, prefix, e) {
        assert AddsAt(r, byEpoch, a, stats[..i], e);
        AddsOneAt(r, byEpoch, a, stats, i, e);
      }
      r := Pushed(r, a, s);
    }
    assert stats[..|stats|] == stats;
  }

  method CollectByEpoch(records: Records) returns (byEpoch: map<nat, seq<Standing>>)
    requires ValidRecords(records)
    ensures forall e :: Lists(Of(byEpoch, e), records, records.Keys, e)
    ensures forall e :: e in byEpoch <==> Of(byEpoch, e) != []
  {
    byEpoch := map[];
    var todo := records.Keys;
    ghost var done := {};
    while todo != {}
      invariant todo + done == records.Keys && todo !! done
      invariant forall e :: Lists(Of(byEpoch, e), records, done, e)
      invariant forall e :: e in byEpoch <==> Of(byEpoch, e) != []
      decreases todo
    {
      var a :| a in todo;
      ghost var before := byEpoch;
      byEpoch := AddAccount(byEpoch, a, records[a]);
      forall e ensures Lists(Of(byEpoch, e), records, done + {a}, e) {
        assert AddsAt(byEpoch, before, a, records[a], e);
        ListsMore(Of(before, e), records, done, e, a);
      }
      forall e ensures e in byEpoch <==> Of(byEpoch, e) != [] {
        assert AddsAt(byEpoch, before, a, records[a], e);
      }
      todo, done := todo - {a}, done + {a};
    }
    assert done == records.Keys;
  }

  lemma {:induction false} ContributionMember(a: string, stats: seq<EpochStats>, epoch: nat, x: Standing)
    ensures x in Contribution(a, stats, epoch) <==> x.voteAccount == a && HasEntry(stats, epoch, x.value)
  {
    if stats != [] {
      var n := |stats| - 1;
      ContributionMember(a, stats[..n], epoch, x);
      if HasEntry(stats, epoch, x.value) {
        var i :| 0 <= i < |stats| && stats[i].epoch == epoch && stats[i].value == x.value;
        assert i < n ==> stats[..n][i] == stats[i];
      }
      if HasEntry(stats[..n], epoch, x.value) {
        var i :| 0 <= i < n && stats[..n][i].epoch == epoch && stats[..n][i].value == x.value;
        assert stats[i].epoch == epoch && stats[i].value == x.value;
      }
      if stats[n].epoch == epoch && stats[n].value == x.value {
        assert HasEntry(stats, epoch, x.value);
      }
    }
  }

  lemma {:induction false} ContributionAtMostOne(a: string, stats: seq<EpochStats>, epoch: nat)
    requires OnePerEpoch(stats)
    ensures |Contribution(a, stats, epoch)| <= 1
    ensures (forall i :: 0 <= i < |stats| ==> stats[i].epoch != epoch) ==> Contribution(a, stats, epoch) == []
  {
    if stats != [] {
      ContributionAtMostOne(a, stats[..|stats| - 1], epoch);
    }
  }

  lemma {:induction false} ListsMore(s: seq<Standing>, records: Records, done: set<string>, epoch: nat, a: string)
    requires ValidRecords(records) && Lists(s, records, done, epoch) && a in records && a !in done
    ensures Lists(s + Contribution(a, records[a], epoch), records, done + {a}, epoch)
  {
    var c := Contribution(a, records[a], epoch);
    ContributionAtMostOne(a, records[a], epoch);
    forall x ensures x in c <==> x.voteAccount == a && HasEntry(records[a], epoch, x.value) {
      ContributionMember(a, records[a], epoch, x);
    }
    forall i | 0 <= i < |s| ensures s[i].voteAccount in done {
      assert s[i] in s;
    }
    if c != [] {
      assert c[0] in c;
    }
  }

  /* Ranking one epoch. */

  ghost predicate Ascending(s: seq<Standing>) {
    forall i, j :: 0 <= i < j < |s| ==> s[i].value <= s[j].value
  }

  /** How many entries right before entry i have the same value. */
  ghost predicate SameBefore(s: seq<Standing>, i: nat, same: nat) {
    && same <= i < |s|
    && (forall j :: i - same <= j <= i ==> s[j].value == s[i].value)
    && (forall j :: 0 <= j < i - same ==> s[j].value < s[i].value)
  }

  function Accounts(s: seq<Standing>): set<string> {
    set x | x in s :: x.voteAccount
  }

  lemma {:induction false} AccountsSnoc(s: seq<Standing>, x: Standing)
    ensures Accounts(s + [x]) == Accounts(s) + {x.voteAccount}
  {
  }

  lemma {:induction false} AccountsCount(s: seq<Standing>)
    requires DistinctAccounts(s)
    ensures |Accounts(s)| == |s|
  {
    if s == [] {
      assert Accounts(s) == {};
    } else {
      var n := |s| - 1;
      AccountsCount(s[..n]);
      AccountsSnoc(s[..n], s[n]);
      assert s == s[..n] + [s[n]];
      AccountOf(s[..n], s[n].voteAccount);
      assert s[n].voteAccount !in Accounts(s[..n]);
    }
  }

  lemma {:induction false} AccountOf(s: seq<Standing>, a: string)
    ensures a in Accounts(s) <==> exists k :: 0 <= k < |s| && s[k].voteAccount == a
  {
    if exists k :: 0 <= k < |s| && s[k].voteAccount == a {
      var k :| 0 <= k < |s| && s[k].voteAccount == a;
      assert s[k] in s;
    }
  }

  /** The rank the script computes is the number of validators that do at least as
      well. */
  lemma {:induction false} RankCounts(s: seq<Standing>, records: Records, epoch: nat, i: nat, same: nat)
    requires Lists(s, records, records.Keys, epoch) && Ascending(s) && SameBefore(s, i, same)
    ensures |s| - i + same == |AtLeast(records, epoch, s[i].value)|
  {
    var first := i - same;
    var tail := s[first..];
    AccountsCount(tail);
    forall a ensures a in Accounts(tail) <==> a in AtLeast(records, epoch, s[i].value) {
      AccountOf(tail, a);
      if a in Accounts(tail) {
        var k :| 0 <= k < |tail| && tail[k].voteAccount == a;
        assert s[first + k] in s;
        assert HasEntry(records[a], epoch, s[first + k].value);
      }
      if a in AtLeast(records, epoch, s[i].value) {
        StandingAtLeast(s, records, epoch, s[i].value, a);
        var k :| 0 <= k < |s| && s[k].voteAccount == a && s[k].value >= s[i].value;
        assert tail[k - first] == s[k];
      }
    }
    assert Accounts(tail) == AtLeast(records, epoch, s[i].value);
  }

  lemma {:induction false} StandingAtLeast(s: seq<Standing>, records: Records, epoch: nat, value: int, a: string)
    requires Lists(s, records, records.Keys, epoch) && a in AtLeast(records, epoch, value)
    ensures exists k :: 0 <= k < |s| && s[k].voteAccount == a && s[k].value >= value
  {
    var m :| 0 <= m < |records[a]| && records[a][m].epoch == epoch && records[a][m].value >= value;
    assert Standing(a, records[a][m].value) in s;
  }

  lemma {:induction false} SortedLists(s: seq<Standing>, records: Records, done: set<string>, epoch: nat)
    requires Lists(s, records, done, epoch)
    ensures Lists(StableSort(s, Lower), records, done, epoch) && Ascending(StableSort(s, Lower))
  {
    var t := StableSort(s, Lower);
    assert TotalPreorder(Lower);
    StableSortSorted(s, Lower);
    forall x ensures x in t <==> x in s {
      StableSortMember(s, Lower, x);
    }
    DistinctSort(s);
  }

  lemma {:induction false} DistinctInsert(x: Standing, s: seq<Standing>)
    requires DistinctAccounts(s) && forall y :: y in s ==> y.voteAccount != x.voteAccount
    ensures DistinctAccounts(Insert(x, s, Lower))
  {
    if s != [] && !Lower(x, s[0]) {
      DistinctInsert(x, s[1..]);
      var r := Insert(x, s[1..], Lower);
      forall k | 0 <= k < |r| ensures r[k].voteAccount != s[0].voteAccount {
        InsertMember(x, s[1..], Lower, r[k]);
        if r[k] in s[1..] {
          var m :| 0 <= m < |s[1..]| && s[1..][m] == r[k];
          assert s[m + 1] == r[k];
        } else {
          assert s[0] in s;
        }
      }
    }
  }

  lemma {:induction false} DistinctSort(s: seq<Standing>)
    requires DistinctAccounts(s)
    ensures DistinctAccounts(StableSort(s, Lower))
  {
    if s != [] {
      DistinctSort(s[1..]);
      forall y | y in StableSort(s[1..], Lower) ensures y.voteAccount != s[0].voteAccount {
        StableSortMember(s[1..], Lower, y);
        var m :| 0 <= m < |s[1..]| && s[1..][m] == y;
        assert s[m + 1] == y;
      }
      DistinctInsert(s[0], StableSort(s[1..], Lower));
    }
  }

  /** The records with the ranks of some validators in some epochs filled in. */
  ghost predicate RankedFor(records: Records, original: Records, ranked: set<(string, nat)>) {
    && records.Keys == original.Keys
    && (forall a :: a in records ==> |records[a]| == |original[a]|)
    && (forall a, i :: a in records && 0 <= i < |records[a]| ==>
          records[a][i] == if (a, original[a][i].epoch) in ranked then WithRank(original, original[a][i])
            else original[a][i])
  }

  /** A rank that belongs to the entry of a validator in an epoch. */
  ghost predicate IsRank(records: Records, a: string, epoch: nat, rank: int) {
    && a in records && (exists i :: 0 <= i < |records[a]| && records[a][i].epoch == epoch)
    && forall i :: 0 <= i < |records[a]| && records[a][i].epoch == epoch ==>
      rank == |AtLeast(records, epoch, records[a][i].value)|
  }

  ghost function Pairs(s: seq<Standing>, n: nat, epoch: nat): set<(string, nat)>
    requires n <= |s|
  {
    set j | 0 <= j < n :: (s[j].voteAccount, epoch)
  }

  lemma {:induction false} PairsStep(s: seq<Standing>, n: nat, epoch: nat)
    requires n < |s|
    ensures Pairs(s, n + 1, epoch) == Pairs(s, n, epoch) + {(s[n].voteAccount, epoch)}
  {
  }

  method FindEpoch(stats: seq<EpochStats>, epoch: nat) returns (i: nat)
    requires exists k :: 0 <= k < |stats| && stats[k].epoch == epoch
    ensures i < |stats| && stats[i].epoch == epoch
  {
    i := 0;
    while stats[i].epoch != epoch
      invariant 0 <= i < |stats|
      invariant exists k :: i <= k < |stats| && stats[k].epoch == epoch
      decreases |stats| - i
    {
      i := i + 1;
    }
  }

  lemma {:induction false} RankedEpochs(records: Records, original: Records, ranked: set<(string, nat)>, a: string)
    requires RankedFor(records, original, ranked) && a in records
    ensures forall i :: 0 <= i < |records[a]| ==> records[a][i].epoch == original[a][i].epoch
  {
  }

  lemma {:induction false} RankedOne(
      records: Records, original: Records, ranked: set<(string, nat)>, a: string, i: nat, epoch: nat, rank: nat)
    requires ValidRecords(original) && RankedFor(records, original, ranked) && IsRank(original, a, epoch, rank)
    requires i < |records[a]| && records[a][i].epoch == epoch
    ensures RankedFor(records[a := records[a][i := records[a][i].(rank := Some(rank))]], original,
      ranked + {(a, epoch)})
  {
    RankedEpochs(records, original, ranked, a);
  }

  class RankBook {
    var records: Records

    constructor (records: Records)
      ensures this.records == records
    {
      this.records := records;
    }

    /** Writes one rank into the entry of the epoch. */
    method SetRank(a: string, epoch: nat, rank: nat, ghost original: Records, ghost ranked: set<(string, nat)>)
      requires ValidRecords(original) && RankedFor(records, original, ranked)
      requires IsRank(original, a, epoch, rank)
      modifies this
      ensures RankedFor(records, original, ranked + {(a, epoch)})
    {
      var stats := records[a];
      RankedEpochs(records, original, ranked, a);
      assert exists k :: 0 <= k < |stats| && stats[k].epoch == epoch by {
        var k :| 0 <= k < |original[a]| && original[a][k].epoch == epoch;
        assert stats[k].epoch == epoch;
      }
      var i := FindEpoch(stats, epoch);
      RankedOne(records, original, ranked, a, i, epoch, rank);
      records := records[a := stats[i := stats[i].(rank := Some(rank))]];
    }

    method RankEpoch(epoch: nat, stats: seq<Standing>, ghost original: Records, ghost ranked: set<(string, nat)>)
      requires ValidRecords(original) && RankedFor(records, original, ranked)
      requires Lists(stats, original, original.Keys, epoch)
      modifies this
      ensures RankedFor(records, original, ranked + set a | a in original :: (a, epoch))
    {
      var sorted := StableSort(stats, Lower);
      SortedLists(stats, original, original.Keys, epoch);
      RankSorted(epoch, sorted, original, ranked);
      RankedAll(records, original, ranked, sorted, epoch);
    }

    method RankSorted(epoch: nat, sorted: seq<Standing>, ghost original: Records, ghost ranked: set<(string, nat)>)
      requires ValidRecords(original) && RankedFor(records, original, ranked)
      requires Lists(sorted, original, original.Keys, epoch) && Ascending(sorted)
      modifies this
      ensures RankedFor(records, original, ranked + Pairs(sorted, |sorted|, epoch))
    {
      var previous: Option<int> := None;
      var same := 0;
      assert ranked + Pairs(sorted, 0, epoch) == ranked;
      for index := 0 to |sorted|
        invariant RankedFor(records, original, ranked + Pairs(sorted, index, epoch))
        invariant index == 0 ==> previous == None && same == 0
        invariant 0 < index ==> previous == Some(sorted[index - 1].value) && SameBefore(sorted, index - 1, same)
      {
        var value := sorted[index].value;
        SameStep(sorted, index, same);
        if previous.Some? {
          if previous.value == value {
            same := same + 1;
          } else {
            same := 0;
          }
        }
        previous := Some(value);
        RankStanding(epoch, sorted, index, same, original, ranked);
      }
    }

    method RankStanding(
        epoch: nat, sorted: seq<Standing>, index: nat, same: nat, ghost original: Records,
        ghost ranked: set<(string, nat)>)
      requires ValidRecords(original) && Lists(sorted, original, original.Keys, epoch) && Ascending(sorted)
      requires index < |sorted| && RankedFor(records, original, ranked + Pairs(sorted, index, epoch))
      requires SameBefore(sorted, index, same)
      modifies this
      ensures RankedFor(records, original, ranked + Pairs(sorted, index + 1, epoch))
    {
      StandingRank(sorted, original, epoch, index, same);
      PairsStep(sorted, index, epoch);
      ghost var done := ranked + Pairs(sorted, index, epoch);
      SetRank(sorted[index].voteAccount, epoch, |sorted| - index + same, original, done);
      assert done + {(sorted[index].voteAccount, epoch)} == ranked + Pairs(sorted, index + 1, epoch);
    }

    /** Ranks every validator in every epoch; the order in which validators and epochs
        come out of the maps does not matter. */
    method UpdateRanks()
      requires ValidRecords(records)
      modifies this
      ensures records.Keys == old(records.Keys)
      ensures forall a :: a in records ==> |records[a]| == |old(records)[a]|
      ensures forall a, i :: a in records && 0 <= i < |records[a]| ==>
        var s := old(records)[a][i];
        records[a][i] == s.(rank := Some(|AtLeast(old(records), s.epoch, s.value)|))
    {
      ghost var original := records;
      var byEpoch := CollectByEpoch(records);
      var todo := byEpoch.Keys;
      ghost var ranked := {};
      while todo != {}
        invariant todo <= byEpoch.Keys
        invariant RankedFor(records, original, ranked)
        invariant forall a, e :: a in original && e in byEpoch && e !in todo ==> (a, e) in ranked
        decreases todo
      {
        var epoch :| epoch in todo;
        RankEpoch(epoch, byEpoch[epoch], original, ranked);
        ranked := ranked + set a | a in original :: (a, epoch);
        todo := todo - {epoch};
      }
      forall a, i | a in records && 0 <= i < |records[a]| ensures (a, original[a][i].epoch) in ranked {
        var e := original[a][i].epoch;
        assert HasEntry(original[a], e, original[a][i].value);
        assert Standing(a, original[a][i].value) in Of(byEpoch, e);
      }
    }
  }

  lemma {:induction false} SameStep(s: seq<Standing>, index: nat, same: nat)
    requires Ascending(s) && index < |s| && (0 < index ==> SameBefore(s, index - 1, same))
    ensures SameBefore(s, index, if 0 < index && s[index].value == s[index - 1].value then same + 1 else 0)
  {
  }

  lemma {:induction false} StandingRank(s: seq<Standing>, records: Records, epoch: nat, i: nat, same: nat)
    requires ValidRecords(records) && Lists(s, records, records.Keys, epoch) && Ascending(s) && SameBefore(s, i, same)
    ensures IsRank(records, s[i].voteAccount, epoch, |s| - i + same)
  {
    RankCounts(s, records, epoch, i, same);
    EntryOfStanding(s, records, epoch, i);
  }

  lemma {:induction false} EntryOfStanding(s: seq<Standing>, records: Records, epoch: nat, k: nat)
    requires ValidRecords(records) && Lists(s, records, records.Keys, epoch) && k < |s|
    ensures s[k].voteAccount in records
    ensures exists i :: 0 <= i < |records[s[k].voteAccount]| && records[s[k].voteAccount][i].epoch == epoch
    ensures forall i :: 0 <= i < |records[s[k].voteAccount]| && records[s[k].voteAccount][i].epoch == epoch ==>
      records[s[k].voteAccount][i].value == s[k].value
  {
    assert s[k] in s;
  }

  lemma {:induction false} RankedAll(
      records: Records, original: Records, ranked: set<(string, nat)>, s: seq<Standing>, epoch: nat)
    requires Lists(s, original, original.Keys, epoch)
    requires RankedFor(records, original, ranked + Pairs(s, |s|, epoch))
    ensures RankedFor(records, original, ranked + set a | a in original :: (a, epoch))
  {
    forall a, i | a in original && 0 <= i < |original[a]| && original[a][i].epoch == epoch
      ensures exists j :: 0 <= j < |s| && s[j].voteAccount == a
    {
      assert HasEntry(original[a], epoch, original[a][i].value);
      assert Standing(a, original[a][i].value) in s;
    }
  }

  ghost predicate Attained(records: Records, epoch: nat, value: int) {
    exists a :: a in records && HasEntry(records[a], epoch, value)
  }

  /** Ties share a rank, and a better value means a smaller one. */
  lemma {:induction false} RankOrder(records: Records, epoch: nat, x: int, y: int)
    requires x <= y
    ensures AtLeast(records, epoch, y) <= AtLeast(records, epoch, x)
    ensures |AtLeast(records, epoch, y)| <= |AtLeast(records, epoch, x)|
    ensures x < y && ValidRecords(records) && Attained(records, epoch, x) ==>
      |AtLeast(records, epoch, y)| < |AtLeast(records, epoch, x)|
  {
    var lower, upper := AtLeast(records, epoch, x), AtLeast(records, epoch, y);
    SubsetCount(upper, lower);
    if x < y && ValidRecords(records) && Attained(records, epoch, x) {
      var a :| a in records && HasEntry(records[a], epoch, x);
      var i :| 0 <= i < |records[a]| && records[a][i].epoch == epoch && records[a][i].value == x;
      assert a in lower && a !in upper;
      SubsetCount(upper, lower - {a});
    }
  }

  lemma {:induction false} SubsetCount(a: set<string>, b: set<string>)
    requires a <= b
    ensures |a| <= |b|
  {
    assert b == a + (b - a);
  }
}
