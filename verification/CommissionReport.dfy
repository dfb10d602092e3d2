/** The report of commission changes: the records of each validator are put in order
    and compared one by one, and all changes are sorted together. */
module CommissionReport {
  import opened ChangeLog
  import opened Sequences
  import opened Wrappers

  datatype CommissionRecord = CommissionRecord(epoch: nat, epochSlot: nat, commission: int)

  datatype CommissionChange = CommissionChange(voteAccount: string, from: int, to: int, epoch: nat, epochSlot: nat)

  predicate NotAfter(epochA: nat, slotA: nat, epochB: nat, slotB: nat) {
    epochA < epochB || (epochA == epochB && slotA <= slotB)
  }

  predicate RecordOrder(a: CommissionRecord, b: CommissionRecord) {
    NotAfter(a.epoch, a.epochSlot, b.epoch, b.epochSlot)
  }

  predicate ChangeOrder(a: CommissionChange, b: CommissionChange) {
    NotAfter(a.epoch, a.epochSlot, b.epoch, b.epochSlot)
  }

  function About(voteAccount: string): CommissionChange -> bool {
    (c: CommissionChange) => c.voteAccount == voteAccount
  }

  /** The changes along a list of records, after some previous commission. */
  function Changes(voteAccount: string, previous: Option<int>, records: seq<CommissionRecord>): seq<CommissionChange>
    decreases records
  {
    if records == [] then []
    else
      var r := records[0];
      var rest := Changes(voteAccount, Some(r.commission), records[1..]);
      if previous.Some? && r.commission != previous.value
      then [CommissionChange(voteAccount, previous.value, r.commission, r.epoch, r.epochSlot)] + rest
      else rest
  }

  /** What the report must say about one validator. */
  function ChangesOf(commissions: map<string, seq<CommissionRecord>>, v: string): seq<CommissionChange> {
    if v in commissions then Changes(v, None, StableSort(commissions[v], RecordOrder)) else []
  }

  method AccountChanges(voteAccount: string, records: seq<CommissionRecord>) returns (changes: seq<CommissionChange>)
    ensures changes == Changes(voteAccount, None, StableSort(records, RecordOrder))
  {
    var sorted := StableSort(records, RecordOrder);
    var previous := None;
    changes := [];
    for i := 0 to |sorted|
      invariant changes + Changes(voteAccount, previous, sorted[i..]) == Changes(voteAccount, None, sorted)
    {
      var record := sorted[i];
      assert sorted[i..][1..] == sorted[i + 1..];
      if previous.Some? && record.commission != previous.value {
        changes := changes + [CommissionChange(voteAccount, previous.value, record.commission, record.epoch,
          record.epochSlot)];
      }
      previous := Some(record.commission);
    }
  }

  method AllChanges(commissions: map<string, seq<CommissionRecord>>) returns (changes: seq<CommissionChange>)
    ensures forall v :: Filter(changes, About(v)) == ChangesOf(commissions, v)
  {
    changes := [];
    var todo := commissions.Keys;
    while todo != {}
      invariant todo <= commissions.Keys
      invariant forall v :: Filter(changes, About(v)) == if v in todo then [] else ChangesOf(commissions, v)
      decreases todo
    {
      var v :| v in todo;
      var own := AccountChanges(v, commissions[v]);
      AddOwn(changes, own, v, commissions[v]);
      changes := changes + own;
      todo := todo - {v};
    }
  }

  method Report(commissions: map<string, seq<CommissionRecord>>) returns (changes: seq<CommissionChange>)
    ensures forall i, j :: 0 <= i < j < |changes| ==>
      || changes[i].epoch < changes[j].epoch
      || (changes[i].epoch == changes[j].epoch && changes[i].epochSlot <= changes[j].epochSlot)
    ensures forall v :: Filter(changes, About(v)) == ChangesOf(commissions, v)
  {
    var unsorted := AllChanges(commissions);
    changes := StableSort(unsorted, ChangeOrder);
    assert TotalPreorder(ChangeOrder);
    StableSortSorted(unsorted, ChangeOrder);
    forall v ensures Filter(changes, About(v)) == ChangesOf(commissions, v) {
      ChangesOfSorted(commissions, v);
      StableSortKeepsSortedPart(unsorted, ChangeOrder, About(v));
    }
  }

  lemma {:induction false} AddOwn(
      changes: seq<CommissionChange>, own: seq<CommissionChange>, v: string, records: seq<CommissionRecord>)
    requires own == Changes(v, None, StableSort(records, RecordOrder))
    ensures forall u :: Filter(changes + own, About(u)) == Filter(changes, About(u)) + if u == v then own else []
  {
    forall u ensures Filter(changes + own, About(u)) == Filter(changes, About(u)) + if u == v then own else [] {
      FilterConcat(changes, own, About(u));
      OwnChanges(v, None, StableSort(records, RecordOrder), u);
    }
  }

  lemma {:induction false} OwnChanges(v: string, previous: Option<int>, records: seq<CommissionRecord>, u: string)
    ensures var own := Changes(v, previous, records); Filter(own, About(u)) == if u == v then own else []
    decreases records
  {
    if records != [] {
      OwnChanges(v, Some(records[0].commission), records[1..], u);
    }
  }

  lemma {:induction false} ChangesFrom(v: string, previous: Option<int>, records: seq<CommissionRecord>)
    ensures forall c :: c in Changes(v, previous, records) ==>
      exists r :: r in records && c.epoch == r.epoch && c.epochSlot == r.epochSlot
    decreases records
  {
    if records != [] {
      ChangesFrom(v, Some(records[0].commission), records[1..]);
      assert forall r :: r in records[1..] ==> r in records;
      assert records[0] in records;
    }
  }

  /** The changes along sorted records are sorted. */
  lemma {:induction false} ChangesSorted(v: string, previous: Option<int>, records: seq<CommissionRecord>)
    requires SortedBy(records, RecordOrder)
    ensures SortedBy(Changes(v, previous, records), ChangeOrder)
    decreases records
  {
    if records != [] {
      var rest := Changes(v, Some(records[0].commission), records[1..]);
      ChangesSorted(v, Some(records[0].commission), records[1..]);
      ChangesFrom(v, Some(records[0].commission), records[1..]);
      forall c | c in rest ensures NotAfter(records[0].epoch, records[0].epochSlot, c.epoch, c.epochSlot) {
        var r :| r in records[1..] && c.epoch == r.epoch && c.epochSlot == r.epochSlot;
        var k :| 0 <= k < |records[1..]| && records[1..][k] == r;
        assert RecordOrder(records[0], records[k + 1]);
      }
    }
  }

  lemma {:induction false} ChangesOfSorted(commissions: map<string, seq<CommissionRecord>>, v: string)
    ensures SortedBy(ChangesOf(commissions, v), ChangeOrder)
  {
    if v in commissions {
      assert TotalPreorder(RecordOrder);
      StableSortSorted(commissions[v], RecordOrder);
      ChangesSorted(v, None, StableSort(commissions[v], RecordOrder));
    }
  }

  /** A chain of real changes that leads from one commission to another. */
  ghost predicate Chain(changes: seq<CommissionChange>, first: int, last: int) {
    if changes == [] then first == last
    else changes[0].from == first && changes[0].to != first && Chain(changes[1..], changes[0].to, last)
  }

  lemma {:induction false} ChangesChain(v: string, previous: int, records: seq<CommissionRecord>)
    ensures Chain(Changes(v, Some(previous), records), previous,
      if records == [] then previous else records[|records| - 1].commission)
    decreases records
  {
    if records != [] {
      ChangesChain(v, records[0].commission, records[1..]);
    }
  }

  /** In the final list the changes of a validator lead, one after the other, from its
      first commission to its last. */
  lemma {:induction false} ReportChains(
      commissions: map<string, seq<CommissionRecord>>, changes: seq<CommissionChange>, v: string)
    requires forall u :: Filter(changes, About(u)) == ChangesOf(commissions, u)
    requires v in commissions && commissions[v] != []
    ensures var sorted := StableSort(commissions[v], RecordOrder);
      Chain(Filter(changes, About(v)), sorted[0].commission, sorted[|sorted| - 1].commission)
  {
    var sorted := StableSort(commissions[v], RecordOrder);
    ChangesChain(v, sorted[0].commission, sorted[1..]);
  }

  /** Applying a chain link by link, each change to the commission left by the one
      before. */
  lemma {:induction false} ChainLinks(changes: seq<CommissionChange>, first: int, last: int)
    requires Chain(changes, first, last)
    ensures forall k :: 0 <= k < |changes| ==> changes[k].from != changes[k].to
    ensures forall k :: 0 <= k < |changes| - 1 ==> changes[k].to == changes[k + 1].from
    ensures changes != [] ==> changes[0].from == first && changes[|changes| - 1].to == last
  {
    if changes != [] {
      ChainLinks(changes[1..], changes[0].to, last);
      assert forall k :: 1 <= k < |changes| ==> changes[k] == changes[1..][k - 1];
    }
  }

  /* From the snapshots to the report. */

  function RecordOf(e: Entry<int>): CommissionRecord {
    CommissionRecord(e.epoch, e.epochSlot, e.value)
  }

  lemma {:induction false} ChangesSnoc(
      v: string, previous: Option<int>, records: seq<CommissionRecord>, r: CommissionRecord)
    ensures Changes(v, previous, records + [r]) == Changes(v, previous, records) +
      Changes(v, if records == [] then previous else Some(records[|records| - 1].commission), [r])
    decreases records
  {
    if records == [] {
      assert records + [r] == [r];
    } else {
      ChangesSnoc(v, Some(records[0].commission), records[1..], r);
      assert (records + [r])[1..] == records[1..] + [r];
    }
  }

  /** Leaving out the repetitions loses and invents no change. */
  lemma {:induction false} LogHasAllChanges(v: string, history: seq<Entry<int>>)
    requires InOrder(history)
    ensures Changes(v, None, Map(RecordOf, Log(history))) == Changes(v, None, Map(RecordOf, history))
  {
    if history != [] {
      var n := |history| - 1;
      var earlier, s := history[..n], history[n];
      var log := Log(earlier);
      LogHasAllChanges(v, earlier);
      LogInvariant(earlier);
      assert history == earlier + [s];
      MapConcat(RecordOf, earlier, [s]);
      MapConcat(RecordOf, log, [s]);
      assert Map(RecordOf, [s]) == [RecordOf(s)];
      ChangesSnoc(v, None, Map(RecordOf, earlier), RecordOf(s));
      ChangesSnoc(v, None, Map(RecordOf, log), RecordOf(s));
    }
  }

  /** Snapshots whose epochs and slots grow with them. */
  ghost predicate SlotsIncrease(history: seq<Entry<int>>) {
    forall i, j :: 0 <= i < j < |history| ==>
      !NotAfter(history[j].epoch, history[j].epochSlot, history[i].epoch, history[i].epochSlot)
  }

  /** How often the commission differs from the one before. */
  function Differences(records: seq<CommissionRecord>): nat {
    var n := |records| - 1;
    if n < 1 then 0
    else Differences(records[..n]) + if records[n - 1].commission != records[n].commission then 1 else 0
  }

  /** The changes along some records are exactly those between neighbours, in order and
      with nothing else: the one that ends at record k comes after all that end before,
      and says who changed from what to what, in which epoch and at which slot. */
  lemma {:induction false} ChangesAreNeighbours(v: string, records: seq<CommissionRecord>, k: nat)
    requires 0 < k < |records| && records[k - 1].commission != records[k].commission
    ensures |Changes(v, None, records)| == Differences(records)
    ensures Differences(records[..k]) < |Changes(v, None, records)|
    ensures Changes(v, None, records)[Differences(records[..k])]
      == CommissionChange(v, records[k - 1].commission, records[k].commission, records[k].epoch, records[k].epochSlot)
  {
    var n := |records| - 1;
    var earlier, r := records[..n], records[n];
    ChangesCount(v, records);
    ChangesCount(v, earlier);
    assert records == earlier + [r];
    ChangesSnoc(v, None, earlier, r);
    if k < n {
      assert records[..k] == earlier[..k];
      ChangesAreNeighbours(v, earlier, k);
    }
  }

  lemma {:induction false} ChangesCount(v: string, records: seq<CommissionRecord>)
    ensures |Changes(v, None, records)| == Differences(records)
  {
    if records != [] {
      var n := |records| - 1;
      assert records == records[..n] + [records[n]];
      ChangesCount(v, records[..n]);
      ChangesSnoc(v, None, records[..n], records[n]);
    }
  }

  /* What the report reads: the logged rows of a window of epochs, and for every closed
     epoch of the window the effective commission, placed behind all its slots. */

  const SLOTS_IN_EPOCH: nat := 432000

  /** A row of the validators table. */
  datatype ClosedRow = ClosedRow(voteAccount: string, epoch: nat, commissionEffective: Option<int>)

  function Since(bound: int): Entry<int> -> bool {
    (e: Entry<int>) => e.epoch > bound
  }

  function Effective(voteAccount: string, bound: int): ClosedRow -> bool {
    (r: ClosedRow) => r.voteAccount == voteAccount && r.epoch > bound && r.commissionEffective.Some?
  }

  function EndRecord(r: ClosedRow): CommissionRecord {
    CommissionRecord(r.epoch, SLOTS_IN_EPOCH, if r.commissionEffective.Some? then r.commissionEffective.value else 0)
  }

  /** The records of a validator; the database returns them in any order. */
  function Loaded(
      seen: seq<Entry<int>>, closed: seq<ClosedRow>, voteAccount: string, bound: int): seq<CommissionRecord> {
    Map(RecordOf, Filter(seen, Since(bound))) + Map(EndRecord, Filter(closed, Effective(voteAccount, bound)))
  }

  /** The effective commission of a closed epoch of the window, behind slot 431999. */
  predicate IsEndOf(c: ClosedRow, v: string, bound: int, r: CommissionRecord) {
    && c.voteAccount == v && c.epoch > bound && c.commissionEffective == Some(r.commission)
    && r.epoch == c.epoch && r.epochSlot == 432000
  }

  /** What is read: every sighting of the window as it was, and for every closed epoch of
      the window with an effective commission that commission. */
  lemma {:induction false} LoadedAre(
      seen: seq<Entry<int>>, closed: seq<ClosedRow>, v: string, bound: int, r: CommissionRecord)
    ensures r in Loaded(seen, closed, v, bound) <==>
      || (exists e :: e in seen && e.epoch > bound && r == CommissionRecord(e.epoch, e.epochSlot, e.value))
      || (exists c :: c in closed && IsEndOf(c, v, bound, r))
  {
    LoadedSightings(seen, bound, r);
    LoadedClosed(closed, v, bound, r);
    assert r in Loaded(seen, closed, v, bound) <==>
      r in Map(RecordOf, Filter(seen, Since(bound))) || r in Map(EndRecord, Filter(closed, Effective(v, bound)));
  }

  lemma {:induction false} LoadedSightings(seen: seq<Entry<int>>, bound: int, r: CommissionRecord)
    ensures r in Map(RecordOf, Filter(seen, Since(bound))) <==>
      exists e :: e in seen && e.epoch > bound && r == CommissionRecord(e.epoch, e.epochSlot, e.value)
  {
    var own := Filter(seen, Since(bound));
    var records := Map(RecordOf, own);
    if r in records {
      var k :| 0 <= k < |records| && records[k] == r;
      FilterMember(seen, Since(bound), own[k]);
    }
    if e :| e in seen && e.epoch > bound && r == CommissionRecord(e.epoch, e.epochSlot, e.value) {
      FilterMember(seen, Since(bound), e);
      var k :| 0 <= k < |own| && own[k] == e;
      assert records[k] in records;
    }
  }

  lemma {:induction false} LoadedClosed(closed: seq<ClosedRow>, v: string, bound: int, r: CommissionRecord)
    ensures r in Map(EndRecord, Filter(closed, Effective(v, bound))) <==>
      exists c :: c in closed && IsEndOf(c, v, bound, r)
  {
    var own := Filter(closed, Effective(v, bound));
    var records := Map(EndRecord, own);
    if r in records {
      var k :| 0 <= k < |records| && records[k] == r;
      FilterMember(closed, Effective(v, bound), own[k]);
    }
    if c :| c in closed && IsEndOf(c, v, bound, r) {
      FilterMember(closed, Effective(v, bound), c);
      var k :| 0 <= k < |own| && own[k] == c;
      assert records[k] in records;
    }
  }

  predicate SameKey(a: CommissionRecord, b: CommissionRecord) { a.epoch == b.epoch && a.epochSlot == b.epochSlot }

  ghost predicate DistinctKeys(s: seq<CommissionRecord>) {
    forall i, j :: 0 <= i < j < |s| ==> !SameKey(s[i], s[j])
  }

  ghost predicate Strict(s: seq<CommissionRecord>) {
    forall i, j :: 0 <= i < j < |s| ==> !RecordOrder(s[j], s[i])
  }

  lemma {:induction false} InsertStrict(x: CommissionRecord, s: seq<CommissionRecord>)
    requires Strict(s) && forall y :: y in s ==> !SameKey(x, y)
    ensures Strict(Insert(x, s, RecordOrder))
  {
    if s != [] {
      assert s[0] in s;
      if !RecordOrder(x, s[0]) {
        InsertStrict(x, s[1..]);
        var t := Insert(x, s[1..], RecordOrder);
        forall i | 0 <= i < |t| ensures !RecordOrder(t[i], s[0]) {
          InsertMember(x, s[1..], RecordOrder, t[i]);
          if t[i] != x {
            var k :| 0 <= k < |s[1..]| && s[1..][k] == t[i];
            assert !RecordOrder(s[k + 1], s[0]);
          }
        }
      }
    }
  }

  lemma {:induction false} SortStrict(s: seq<CommissionRecord>)
    requires DistinctKeys(s)
    ensures Strict(StableSort(s, RecordOrder))
  {
    if s != [] {
      SortStrict(s[1..]);
      forall y | y in StableSort(s[1..], RecordOrder) ensures !SameKey(s[0], y) {
        StableSortMember(s[1..], RecordOrder, y);
        var k :| 0 <= k < |s[1..]| && s[1..][k] == y;
        assert s[k + 1] == y;
      }
      InsertStrict(s[0], StableSort(s[1..], RecordOrder));
    }
  }

  /** Records with different keys are sorted into one sequence, however they came. */
  lemma {:induction false} SameSort(s: seq<CommissionRecord>, t: seq<CommissionRecord>)
    requires multiset(s) == multiset(t) && DistinctKeys(t)
    ensures StableSort(s, RecordOrder) == StableSort(t, RecordOrder)
  {
    assert TotalPreorder(RecordOrder);
    SortStrict(t);
    StableSortPermutes(t, RecordOrder);
    StableSortOfArrangement(s, StableSort(t, RecordOrder), RecordOrder);
  }

  /** A record that repeats the commission right before it makes no change. */
  lemma {:induction false} InsertRepeat(
      v: string, previous: Option<int>, x: CommissionRecord, s: seq<CommissionRecord>, r: CommissionRecord)
    requires Strict(s) && r in s && r.commission == x.commission && !RecordOrder(x, r)
    requires forall y :: y in s ==> RecordOrder(y, r) || RecordOrder(x, y)
    ensures Changes(v, previous, Insert(x, s, RecordOrder)) == Changes(v, previous, s)
    decreases s
  {
    var k :| 0 <= k < |s| && s[k] == r;
    var rest := s[1..];
    assert !RecordOrder(x, s[0]) by {
      assert k > 0 ==> !RecordOrder(s[k], s[0]);
    }
    if k == 0 {
      if rest != [] {
        assert s[1] in s && !RecordOrder(s[1], s[0]);
      }
      assert Insert(x, rest, RecordOrder) == [x] + rest && ([x] + rest)[1..] == rest;
    } else {
      assert rest[k - 1] == r;
      InsertRepeat(v, Some(s[0].commission), x, rest, r);
    }
  }

  /** Other records that have keys of their own and do not come between two sightings of
      one epoch. */
  ghost predicate Beside(history: seq<Entry<int>>, others: seq<CommissionRecord>) {
    && DistinctKeys(others)
    && (forall i, x :: 0 <= i < |history| && x in others ==> !SameKey(RecordOf(history[i]), x))
    && (forall i, j, x :: 0 <= i < j < |history| && history[i].epoch == history[j].epoch && x in others ==>
          RecordOrder(x, RecordOf(history[i])) || RecordOrder(RecordOf(history[j]), x))
  }

  lemma {:induction false} BesideKeys(history: seq<Entry<int>>, others: seq<CommissionRecord>)
    requires SlotsIncrease(history) && Beside(history, others)
    ensures DistinctKeys(Map(RecordOf, history) + others)
  {
    var all, n := Map(RecordOf, history) + others, |history|;
    forall i, j | 0 <= i < j < |all| ensures !SameKey(all[i], all[j]) {
      if j < n {
        assert !NotAfter(history[j].epoch, history[j].epochSlot, history[i].epoch, history[i].epochSlot);
      } else {
        assert all[j] == others[j - n] && all[j] in others;
        if i < n {
          assert !SameKey(RecordOf(history[i]), all[j]);
        } else {
          assert all[i] == others[i - n];
        }
      }
    }
  }

  lemma {:induction false} BesideMore(history: seq<Entry<int>>, s: Entry<int>, others: seq<CommissionRecord>)
    requires SlotsIncrease(history + [s]) && Beside(history + [s], others)
    ensures SlotsIncrease(history) && Beside(history, others) && Beside(history, [RecordOf(s)] + others)
  {
    var all, n := history + [s], |history|;
    assert forall i :: 0 <= i < n ==> all[i] == history[i];
    assert all[n] == s;
    forall i | 0 <= i < n ensures !RecordOrder(RecordOf(s), RecordOf(history[i])) {
      assert !NotAfter(all[n].epoch, all[n].epochSlot, all[i].epoch, all[i].epochSlot);
    }
    forall x | x in others ensures !SameKey(RecordOf(s), x) {
      assert !SameKey(RecordOf(all[n]), x);
    }
    var more := [RecordOf(s)] + others;
    assert forall i :: 1 <= i < |more| ==> more[i] == others[i - 1] && others[i - 1] in others;
  }

  lemma {:induction false} RecordMoved(log: seq<Entry<int>>, s: Entry<int>, others: seq<CommissionRecord>)
    ensures Map(RecordOf, log + [s]) + others == Map(RecordOf, log) + ([RecordOf(s)] + others)
  {
    MapConcat(RecordOf, log, [s]);
    assert Map(RecordOf, [s]) == [RecordOf(s)];
  }

  /** What is reported about a validator from some sightings and other records. */
  function Reported(v: string, seen: seq<Entry<int>>, others: seq<CommissionRecord>): seq<CommissionChange> {
    Changes(v, None, StableSort(Map(RecordOf, seen) + others, RecordOrder))
  }

  lemma {:induction false} ReportedMoved(v: string, seen: seq<Entry<int>>, s: Entry<int>, others: seq<CommissionRecord>)
    ensures Reported(v, seen + [s], others) == Reported(v, seen, [RecordOf(s)] + others)
  {
    RecordMoved(seen, s, others);
  }

  /** Leaving out the repetitions loses and invents no change, whatever other records
      the report reads beside the log. */
  lemma {:induction false} LogReportsAllChanges(v: string, history: seq<Entry<int>>, others: seq<CommissionRecord>)
    requires InOrder(history) && SlotsIncrease(history) && Beside(history, others)
    ensures Reported(v, Log(history), others) == Reported(v, history, others)
    decreases |history|
  {
    if history != [] {
      var n := |history| - 1;
      var earlier, s := history[..n], history[n];
      assert history == earlier + [s];
      BesideMore(earlier, s, others);
      LogSnoc(earlier, s);
      if Log(history) == Log(earlier) {
        LogReportsAllChanges(v, earlier, others);
        RepeatReported(v, earlier, s, others);
      } else {
        LogReportsAllChanges(v, earlier, [RecordOf(s)] + others);
        ReportedMoved(v, Log(earlier), s, others);
        ReportedMoved(v, earlier, s, others);
      }
    }
  }

  lemma {:induction false} RepeatState(earlier: seq<Entry<int>>, s: Entry<int>)
    requires InOrder(earlier) && Log(earlier + [s]) == Log(earlier)
    ensures earlier != [] && SameState(earlier[|earlier| - 1], s)
  {
    LogSnoc(earlier, s);
    LogInvariant(earlier);
  }

  lemma {:induction false} RepeatSorted(earlier: seq<Entry<int>>, s: Entry<int>, others: seq<CommissionRecord>)
    requires SlotsIncrease(earlier + [s]) && Beside(earlier + [s], others)
    ensures StableSort(Map(RecordOf, earlier + [s]) + others, RecordOrder)
      == Insert(RecordOf(s), StableSort(Map(RecordOf, earlier) + others, RecordOrder), RecordOrder)
  {
    BesideKeys(earlier + [s], others);
    MapConcat(RecordOf, earlier, [s]);
    assert Map(RecordOf, [s]) == [RecordOf(s)];
    SortRepeat(Map(RecordOf, earlier + [s]) + others, Map(RecordOf, earlier) + others, RecordOf(s), |earlier|);
  }

  lemma {:induction false} RepeatReported(
      v: string, earlier: seq<Entry<int>>, s: Entry<int>, others: seq<CommissionRecord>)
    requires InOrder(earlier) && SlotsIncrease(earlier) && Beside(earlier, others)
    requires SlotsIncrease(earlier + [s]) && Beside(earlier + [s], others)
    requires Log(earlier + [s]) == Log(earlier)
    ensures Reported(v, earlier + [s], others) == Reported(v, earlier, others)
  {
    RepeatState(earlier, s);
    RepeatSorted(earlier, s, others);
    BesideKeys(earlier, others);
    SortStrict(Map(RecordOf, earlier) + others);
    RepeatPlace(earlier, s, others);
    InsertRepeat(v, None, RecordOf(s), StableSort(Map(RecordOf, earlier) + others, RecordOrder),
      RecordOf(earlier[|earlier| - 1]));
  }

  lemma {:induction false} SortRepeat(
      all: seq<CommissionRecord>, kept: seq<CommissionRecord>, x: CommissionRecord, n: nat)
    requires n <= |kept| && all == kept[..n] + [x] + kept[n..] && DistinctKeys(all)
    ensures StableSort(all, RecordOrder) == Insert(x, StableSort(kept, RecordOrder), RecordOrder)
  {
    assert kept == kept[..n] + kept[n..];
    assert multiset([x] + kept) == multiset(all);
    SameSort([x] + kept, all);
    assert ([x] + kept)[1..] == kept;
  }

  /** The latest of the earlier sightings comes right before its repetition. */
  lemma {:induction false} RepeatPlace(earlier: seq<Entry<int>>, s: Entry<int>, others: seq<CommissionRecord>)
    requires earlier != [] && earlier[|earlier| - 1].epoch == s.epoch
    requires SlotsIncrease(earlier + [s]) && Beside(earlier + [s], others)
    ensures var r, sorted := RecordOf(earlier[|earlier| - 1]), StableSort(Map(RecordOf, earlier) + others, RecordOrder);
      && r in sorted && !RecordOrder(RecordOf(s), r)
      && forall y :: y in sorted ==> RecordOrder(y, r) || RecordOrder(RecordOf(s), y)
  {
    var n, all, records := |earlier|, earlier + [s], Map(RecordOf, earlier);
    var r, sorted := RecordOf(earlier[n - 1]), StableSort(records + others, RecordOrder);
    assert all[n] == s && all[n - 1] == earlier[n - 1];
    assert !NotAfter(all[n].epoch, all[n].epochSlot, all[n - 1].epoch, all[n - 1].epochSlot);
    assert (records + others)[n - 1] == r;
    StableSortMember(records + others, RecordOrder, r);
    forall y | y in sorted ensures RecordOrder(y, r) || RecordOrder(RecordOf(s), y) {
      StableSortMember(records + others, RecordOrder, y);
      if y !in others {
        var i :| 0 <= i < n && records[i] == y;
        assert all[i] == earlier[i];
        assert i < n - 1 ==> !NotAfter(all[n - 1].epoch, all[n - 1].epochSlot, all[i].epoch, all[i].epochSlot);
      }
    }
  }

  /* The window of epochs. */

  /** With epochs that do not go back, a window is the end of the history. */
  lemma {:induction false} WindowIsEnd(history: seq<Entry<int>>, bound: int) returns (k: nat)
    requires SlotsIncrease(history)
    ensures k <= |history| && Filter(history, Since(bound)) == history[k..]
    ensures forall i :: 0 <= i < k ==> history[i].epoch <= bound
  {
    if history == [] {
      k := 0;
    } else if history[0].epoch > bound {
      k := 0;
      forall i | 0 <= i < |history| ensures history[i].epoch > bound {
        assert i > 0 ==> !NotAfter(history[i].epoch, history[i].epochSlot, history[0].epoch, history[0].epochSlot);
      }
      FilterAll(history, Since(bound));
    } else {
      k := WindowIsEnd(history[1..], bound);
      k := k + 1;
    }
  }

  lemma {:induction false} WindowSnoc(log: seq<Entry<int>>, s: Entry<int>, bound: int)
    ensures Filter(log + [s], Since(bound)) == if s.epoch > bound then Filter(log, Since(bound)) + [s]
      else Filter(log, Since(bound))
  {
    FilterConcat(log, [s], Since(bound));
    assert [s][1..] == [];
  }

  lemma {:induction false} LogSnoc(history: seq<Entry<int>>, s: Entry<int>)
    ensures Log(history + [s]) == if history == [] then [s] else RecordAt(Log(history), |Log(history)| - 1, s)
  {
    assert (history + [s])[..|history|] == history;
  }

  /** Cutting a window out of the log is logging the window. */
  lemma {:induction false} LogOfWindow(history: seq<Entry<int>>, bound: int)
    requires InOrder(history) && SlotsIncrease(history)
    ensures Filter(Log(history), Since(bound)) == Log(Filter(history, Since(bound)))
  {
    if history != [] {
      var n := |history| - 1;
      var earlier, s := history[..n], history[n];
      assert history == earlier + [s];
      LogOfWindow(earlier, bound);
      LogSnoc(earlier, s);
      if earlier == [] {
        OneInWindow(s, bound);
        assert [s] == history;
      } else {
        WindowMore(earlier, s, bound);
      }
    }
  }

  lemma {:induction false} OneInWindow(s: Entry<int>, bound: int)
    ensures Filter([s], Since(bound)) == Log(Filter([s], Since(bound)))
  {
    assert [s][1..] == [] && [s][..0] == [];
  }

  lemma {:induction false} WindowMore(earlier: seq<Entry<int>>, s: Entry<int>, bound: int)
    requires InOrder(earlier) && SlotsIncrease(earlier) && earlier != []
    requires Filter(Log(earlier), Since(bound)) == Log(Filter(earlier, Since(bound)))
    ensures Filter(RecordAt(Log(earlier), |Log(earlier)| - 1, s), Since(bound)) ==
      Log(Filter(earlier + [s], Since(bound)))
  {
    WindowSnoc(earlier, s, bound);
    WindowSnoc(Log(earlier), s, bound);
    if s.epoch > bound {
      WindowStep(earlier, s, bound);
    }
  }

  lemma {:induction false} LastInWindow(log: seq<Entry<int>>, bound: int)
    requires log != [] && log[|log| - 1].epoch > bound
    ensures var window := Filter(log, Since(bound)); window != [] && window[|window| - 1] == log[|log| - 1]
  {
    var m := |log| - 1;
    assert log == log[..m] + [log[m]];
    WindowSnoc(log[..m], log[m], bound);
  }

  /** A window is empty or ends with the latest sighting. */
  lemma {:induction false} WindowReachesEnd(history: seq<Entry<int>>, bound: int)
    requires SlotsIncrease(history) && history != []
    ensures history[|history| - 1].epoch <= bound ==> Filter(history, Since(bound)) == []
  {
    var k := WindowIsEnd(history, bound);
    if k < |history| {
      var window := Filter(history, Since(bound));
      FilterMember(history, Since(bound), window[|window| - 1]);
    }
  }

  lemma {:induction false} WindowStep(earlier: seq<Entry<int>>, s: Entry<int>, bound: int)
    requires InOrder(earlier) && SlotsIncrease(earlier) && earlier != [] && s.epoch > bound
    requires Filter(Log(earlier), Since(bound)) == Log(Filter(earlier, Since(bound)))
    ensures Log(Filter(earlier, Since(bound)) + [s]) == if SameState(Log(earlier)[|Log(earlier)| - 1], s)
      then Filter(Log(earlier), Since(bound)) else Filter(Log(earlier), Since(bound)) + [s]
  {
    LogInvariant(earlier);
    LogSnoc(Filter(earlier, Since(bound)), s);
    WindowReachesEnd(earlier, bound);
    if earlier[|earlier| - 1].epoch > bound {
      LastInWindow(Log(earlier), bound);
    }
  }

  /** One closed row per validator and epoch. */
  ghost predicate OneRowPerEpoch(closed: seq<ClosedRow>) {
    forall i, j :: 0 <= i < j < |closed| ==>
      closed[i].voteAccount != closed[j].voteAccount || closed[i].epoch != closed[j].epoch
  }

  lemma {:induction false} EffectiveKeys(closed: seq<ClosedRow>, v: string, bound: int)
    requires OneRowPerEpoch(closed)
    ensures DistinctKeys(Map(EndRecord, Filter(closed, Effective(v, bound))))
  {
    if closed != [] {
      EffectiveKeys(closed[1..], v, bound);
      var rest := Filter(closed[1..], Effective(v, bound));
      if Effective(v, bound)(closed[0]) {
        forall k | 0 <= k < |rest| ensures rest[k].epoch != closed[0].epoch {
          FilterMember(closed[1..], Effective(v, bound), rest[k]);
          var m :| 0 <= m < |closed[1..]| && closed[1..][m] == rest[k];
          assert closed[m + 1] == rest[k];
        }
        assert Map(EndRecord, [closed[0]] + rest) == [EndRecord(closed[0])] + Map(EndRecord, rest);
      }
    }
  }

  lemma {:induction false} EffectiveBeside(history: seq<Entry<int>>, closed: seq<ClosedRow>, v: string, bound: int)
    requires OneRowPerEpoch(closed) && forall i :: 0 <= i < |history| ==> history[i].epochSlot < SLOTS_IN_EPOCH
    ensures Beside(history, Map(EndRecord, Filter(closed, Effective(v, bound))))
  {
    var rows := Filter(closed, Effective(v, bound));
    var others := Map(EndRecord, rows);
    EffectiveKeys(closed, v, bound);
    forall x | x in others ensures x.epochSlot == SLOTS_IN_EPOCH {
      var k :| 0 <= k < |rows| && others[k] == x;
    }
  }

  lemma {:induction false} LoadedFromLog(history: seq<Entry<int>>, closed: seq<ClosedRow>, v: string, bound: int)
    requires InOrder(history) && SlotsIncrease(history) && OneRowPerEpoch(closed)
    requires forall i :: 0 <= i < |history| ==> history[i].epochSlot < SLOTS_IN_EPOCH
    ensures DistinctKeys(Loaded(Log(history), closed, v, bound))
    ensures Changes(v, None, StableSort(Loaded(Log(history), closed, v, bound), RecordOrder))
      == Changes(v, None, StableSort(Loaded(history, closed, v, bound), RecordOrder))
  {
    var others := Map(EndRecord, Filter(closed, Effective(v, bound)));
    var k := WindowIsEnd(history, bound);
    var window := history[k..];
    LogOfWindow(history, bound);
    EffectiveBeside(window, closed, v, bound);
    LogReportsAllChanges(v, window, others);
    LogKeys(window, others);
  }

  lemma {:induction false} LogKeys(history: seq<Entry<int>>, others: seq<CommissionRecord>)
    requires SlotsIncrease(history) && Beside(history, others)
    ensures DistinctKeys(Map(RecordOf, Log(history)) + others)
    decreases |history|
  {
    if history == [] {
      BesideKeys(history, others);
    } else {
      var n := |history| - 1;
      var earlier, s := history[..n], history[n];
      assert history == earlier + [s];
      BesideMore(earlier, s, others);
      LogSnoc(earlier, s);
      if Log(history) == Log(earlier) {
        LogKeys(earlier, others);
      } else {
        LogKeys(earlier, [RecordOf(s)] + others);
        RecordMoved(Log(earlier), s, others);
      }
    }
  }

  /** End to end, for the list that Report returns when it reads what was logged and the
      closed epochs: restricted to a validator it is exactly the changes along all
      sightings of the window, the repeated ones included, with the effective commission
      at the end of every closed epoch. */
  lemma {:induction false} ReportOfRun(
      snapshots: seq<Snapshot<int>>, rows: seq<LogRow<int>>, closed: seq<ClosedRow>, bound: int,
                                       commissions: map<string, seq<CommissionRecord>>, changes: seq<CommissionChange>,
                                       v: string)
    requires Increasing(snapshots) && Encodes(rows, snapshots) && OneRowPerEpoch(closed)
    requires var history := Sightings(snapshots, v);
      SlotsIncrease(history) && forall i :: 0 <= i < |history| ==> history[i].epochSlot < SLOTS_IN_EPOCH
    requires v in commissions && multiset(commissions[v]) == multiset(Loaded(LogOf(rows, v), closed, v, bound))
    requires forall u :: Filter(changes, About(u)) == ChangesOf(commissions, u)
    ensures Filter(changes, About(v)) ==
      Changes(v, None, StableSort(Loaded(Sightings(snapshots, v), closed, v, bound), RecordOrder))
  {
    var history := Sightings(snapshots, v);
    SightingsInOrder(snapshots, v);
    LoadedFromLog(history, closed, v, bound);
    SameSort(commissions[v], Loaded(Log(history), closed, v, bound));
  }
}
