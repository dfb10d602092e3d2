/** Closing an epoch: its record is made from the cluster info, and the uptimes and the
    commissions observed during the epoch are summed up into the validator rows. */
module CloseEpoch {
  import opened ChangeLog
  import ChunkedUpsert
  import opened Products
  import opened Sequences
  import opened UptimeHistory
  import opened Wrappers
  import Up = UptimeLog

  datatype ClusterInfo = ClusterInfo(epoch: nat, createdAt: int, transactionCount: int)

  datatype EpochRow = EpochRow(startAt: int, endAt: int, transactionCount: int)

  datatype ValidatorRow = ValidatorRow(
    commissionAdvertised: Option<int>, commissionEffective: Option<int>,
    commissionMax: Option<int>, commissionMin: Option<int>,
    uptimePct: Option<real>, uptime: Option<int>, downtime: Option<int>)

  /** The validators table, by vote account and epoch. */
  type Rows = map<(string, nat), ValidatorRow>

  const DEFAULT_CHUNK_SIZE: nat := 500

  datatype SqlError = NullViolation | DuplicateKey | DivisionByZero

  /* Aggregates: absent over nothing. */

  function MaxOf(s: seq<int>): (m: Option<int>)
    ensures m.None? <==> s == []
    ensures m.Some? ==> m.value in s && forall x :: x in s ==> x <= m.value
  {
    if s == [] then None
    else
      var rest := MaxOf(s[1..]);
      assert forall x :: x in s <==> x == s[0] || x in s[1..];
      if rest.Some? && rest.value > s[0] then rest else Some(s[0])
  }

  function MinOf(s: seq<int>): (m: Option<int>)
    ensures m.None? <==> s == []
    ensures m.Some? ==> m.value in s && forall x :: x in s ==> x >= m.value
  {
    if s == [] then None
    else
      var rest := MinOf(s[1..]);
      assert forall x :: x in s <==> x == s[0] || x in s[1..];
      if rest.Some? && rest.value < s[0] then rest else Some(s[0])
  }

  function Given(xs: seq<Option<int>>): seq<int> {
    if xs == [] then []
    else if xs[0].Some? then [xs[0].value] + Given(xs[1..])
    else Given(xs[1..])
  }

  /** GREATEST and LEAST leave out nulls. */
  function Greatest(xs: seq<Option<int>>): Option<int> { MaxOf(Given(xs)) }

  function Least(xs: seq<Option<int>>): Option<int> { MinOf(Given(xs)) }

  function InEpoch(epoch: nat): ClusterInfo -> bool {
    (c: ClusterInfo) => c.epoch == epoch
  }

  function TimeOf(c: ClusterInfo): int { c.createdAt }

  function CountOf(c: ClusterInfo): int { c.transactionCount }

  /** The record of an epoch, if there is cluster info for it. */
  function EpochRecord(info: seq<ClusterInfo>, epochs: map<nat, EpochRow>, epoch: nat): Option<EpochRow> {
    var own := Filter(info, InEpoch(epoch));
    var first, last := MinOf(Map(TimeOf, own)), MaxOf(Map(TimeOf, own));
    if first.None? || last.None? || own == [] then None
    else
      var start := if epoch > 0 && epoch - 1 in epochs then epochs[epoch - 1].endAt else first.value;
      Some(EpochRow(start, last.value, MaxOf(Map(CountOf, own)).value - MinOf(Map(CountOf, own)).value))
  }

  function Max(a: int, b: int): int { if a >= b then a else b }

  /** The share of the duration a validator was up, between 0 and 1. */
  function UptimePct(duration: int, downtime: Option<int>): real
    requires downtime.Some? ==> duration != 0
  {
    if downtime.None? then 1.0
    else
      var pct := 1.0 - downtime.value as real / duration as real;
      if pct < 0.0 then 0.0 else if pct > 1.0 then 1.0 else pct
  }

  function Uptime(duration: int, downtime: Option<int>): int {
    Max(if downtime.Some? then duration - downtime.value else duration, 0)
  }

  /** The summed length of the down rows of a validator in an epoch, if it has any. */
  function Downtime(uptimes: seq<Up.UptimeRow>, voteAccount: string, epoch: nat): Option<int> {
    var log := Up.LogOf(uptimes, voteAccount);
    if Filter(log, Says(DownIn(epoch))) == [] then None else Some(Span(log, DownIn(epoch)))
  }

  function ValueOf(e: Entry<int>): int { e.value }

  function OfEpoch(epoch: nat): Entry<int> -> bool {
    (e: Entry<int>) => e.epoch == epoch
  }

  function CommissionsIn(log: seq<Entry<int>>, epoch: nat): seq<int> {
    Map(ValueOf, Filter(log, OfEpoch(epoch)))
  }

  class Database {
    var clusterInfo: seq<ClusterInfo>
    var epochs: map<nat, EpochRow>
    var validators: Rows
    var uptimes: seq<Up.UptimeRow>
    var commissions: seq<LogRow<int>>

    constructor (clusterInfo: seq<ClusterInfo>, epochs: map<nat, EpochRow>, validators: Rows,
                 uptimes: seq<Up.UptimeRow>, commissions: seq<LogRow<int>>)
      ensures this.clusterInfo == clusterInfo && this.epochs == epochs && this.validators == validators
      ensures this.uptimes == uptimes && this.commissions == commissions
    {
      this.clusterInfo, this.epochs, this.validators := clusterInfo, epochs, validators;
      this.uptimes, this.commissions := uptimes, commissions;
    }

    method CreateEpochRecord(epoch: nat) returns (done: Result<(), SqlError>)
      modifies this`epochs
      ensures done == Recording(clusterInfo, old(epochs), epoch)
      ensures (forall c :: c in clusterInfo ==> c.epoch != epoch) ==> done == Failure(NullViolation)
      ensures (exists c :: c in clusterInfo && c.epoch == epoch) && epoch in old(epochs) ==>
        done == Failure(DuplicateKey)
      ensures (exists c :: c in clusterInfo && c.epoch == epoch) && epoch !in old(epochs) ==> done.Success?
      ensures epochs == if done.Success? then old(epochs)[epoch := EpochRecord(clusterInfo, old(epochs), epoch).value]
        else old(epochs)
    {
      var record := EpochRecord(clusterInfo, epochs, epoch);
      RecordIs(clusterInfo, epochs, epoch);
      if record.None? {
        return Failure(NullViolation);
      }
      if epoch in epochs {
        return Failure(DuplicateKey);
      }
      epochs := epochs[epoch := record.value];
      done := Success(());
    }

    method UpdateObservedCommission(epoch: nat)
      modifies this`validators
      ensures ObservedAll(old(validators), commissions, epoch, validators)
    {
      forall k | k in validators && k.1 == epoch ensures
        var logged := CommissionsIn(LogOf(commissions, k.0), epoch);
        HasObserved(WithObserved(validators[k], logged), validators[k], logged)
      {
        ObservedExtremes(validators[k], CommissionsIn(LogOf(commissions, k.0), epoch));
      }
      validators := map k | k in validators ::
        if k.1 == epoch then WithObserved(validators[k], CommissionsIn(LogOf(commissions, k.0), epoch))
          else validators[k];
    }

    /** Fails, and changes nothing, when the epoch has no duration and a validator of it
        has down rows. */
    method UpdateUptimes(epoch: nat) returns (done: Result<(), SqlError>)
      modifies this`validators
      ensures done.Failure? <==> Undefined(epochs, old(validators).Keys, uptimes, epoch)
      ensures done.Failure? ==> done.error == DivisionByZero
      ensures done.Failure? || epoch !in epochs ==> validators == old(validators)
      ensures done.Success? && epoch in epochs ==> TimedAll(old(validators), epochs[epoch], uptimes, epoch, validators)
    {
      if epoch !in epochs {
        return Success(());
      }
      var row := epochs[epoch];
      if exists k :: k in validators && k.1 == epoch && !WellDefined(row, Downtime(uptimes, k.0, epoch)) {
        return Failure(DivisionByZero);
      }
      forall k | k in validators && k.1 == epoch ensures
        var downtime := Downtime(uptimes, k.0, epoch);
        HasUptime(WithUptime(validators[k], row, downtime), validators[k], row, downtime)
      {
        UptimeStored(validators[k], row, Downtime(uptimes, k.0, epoch));
      }
      validators := map k | k in validators ::
        if k.1 == epoch then WithUptime(validators[k], row, Downtime(uptimes, k.0, epoch)) else validators[k];
      done := Success(());
    }

    /** The chunks that store what is final after an epoch; of those columns the one that
        the later statements read is the effective commission. */
    method UpdateFinalized(epoch: nat, finalized: map<string, Option<int>>)
      modifies this`validators
      ensures FinalizedAll(old(validators), epoch, finalized, validators)
    {
      var accounts := ChunkedUpsert.ListOf(finalized.Keys);
      var i := 0;
      while i < |accounts|
        invariant i <= |accounts| && validators.Keys == old(validators.Keys)
        invariant forall k :: k in validators ==>
          if k.0 in accounts[..i] then IsFinal(validators[k], old(validators)[k], k, epoch, finalized)
          else validators[k] == old(validators)[k]
      {
        var next := ChunkedUpsert.Min(i + DEFAULT_CHUNK_SIZE, |accounts|);
        var chunk := accounts[i..next];
        assert accounts[..next] == accounts[..i] + chunk;
        validators := map k | k in validators ::
          if k.1 == epoch && k.0 in chunk && k.0 in finalized
          then validators[k].(commissionEffective := finalized[k.0]) else validators[k];
        i := next;
      }
      assert accounts[..|accounts|] == accounts;
      assert ChunkedUpsert.Elements(accounts) == finalized.Keys;
    }

    /** The statements after the record, up to the first that fails. */
    method Finish(epoch: nat, finalized: map<string, Option<int>>) returns (done: Result<(), SqlError>)
      requires epoch in epochs
      modifies this`validators
      ensures Finished(epochs, old(validators), epoch, finalized, uptimes, commissions, done, validators)
    {
      UpdateFinalized(epoch, finalized);
      ghost var final := validators;
      done := UpdateUptimes(epoch);
      if done.Failure? {
        return;
      }
      ghost var timed := validators;
      UpdateObservedCommission(epoch);
      CompletedBy(old(validators), epoch, finalized, epochs[epoch], uptimes, commissions, final, timed, validators);
    }

    /** The statements of closing an epoch, up to the first that fails. */
    method Close(epoch: nat, finalized: map<string, Option<int>>) returns (done: Result<(), SqlError>)
      modifies this`epochs, this`validators
      ensures Closed(clusterInfo, uptimes, commissions, finalized, epoch,
        Tables(old(epochs), old(validators)), done, Tables(epochs, validators))
    {
      done := CreateEpochRecord(epoch);
      if done.Success? {
        done := Finish(epoch, finalized);
      }
    }
  }

  datatype Tables = Tables(epochs: map<nat, EpochRow>, validators: Rows)

  /** A row of the epoch that is listed has its effective commission and nothing else
      changed; every other row is as it was. */
  ghost predicate IsFinal(
      after: ValidatorRow, before: ValidatorRow, k: (string, nat), epoch: nat, finalized: map<string, Option<int>>) {
    if k.1 == epoch && k.0 in finalized then after == before.(commissionEffective := finalized[k.0])
    else after == before
  }

  ghost predicate FinalizedAll(before: Rows, epoch: nat, finalized: map<string, Option<int>>, after: Rows) {
    after.Keys == before.Keys && forall k :: k in before ==> IsFinal(after[k], before[k], k, epoch, finalized)
  }

  /** The rows of the epoch with their uptimes, the others as they were. */
  ghost predicate TimedAll(before: Rows, row: EpochRow, uptimes: seq<Up.UptimeRow>, epoch: nat, after: Rows) {
    && after.Keys == before.Keys
    && forall k :: k in before ==>
      if k.1 != epoch then after[k] == before[k]
      else HasUptime(after[k], before[k], row, Downtime(uptimes, k.0, epoch))
  }

  /** What the uptime columns of a row hold: the down time, 0 without one; the rest of
      the duration, or nothing when the down time is longer; and the share that the
      uptime has of the duration.  No other column differs. */
  ghost predicate HasUptime(after: ValidatorRow, before: ValidatorRow, row: EpochRow, downtime: Option<int>) {
    var duration, down := row.endAt - row.startAt, if downtime.Some? then downtime.value else 0;
    && WellDefined(row, downtime)
    && after == before.(uptimePct := after.uptimePct, uptime := after.uptime, downtime := after.downtime)
    && after.downtime == Some(down) && after.uptime.Some? && after.uptimePct.Some?
    && (if down <= duration then after.uptime.value + down == duration else after.uptime.value == 0)
    && 0.0 <= after.uptimePct.value <= 1.0 && (downtime.None? ==> after.uptimePct.value == 1.0)
    && (0 < duration && 0 <= down ==>
          Times(after.uptimePct.value, duration as real) == after.uptime.value as real)
  }

  lemma {:induction false} UptimeStored(v: ValidatorRow, row: EpochRow, downtime: Option<int>)
    requires WellDefined(row, downtime)
    ensures HasUptime(WithUptime(v, row, downtime), v, row, downtime)
  {
    var duration := row.endAt - row.startAt;
    if 0 < duration && (downtime.Some? ==> 0 <= downtime.value) {
      PctMatchesUptime(duration, downtime);
    }
  }

  /** The rows of the epoch with their observed commissions, the others as they were. */
  ghost predicate ObservedAll(before: Rows, commissions: seq<LogRow<int>>, epoch: nat, after: Rows) {
    && after.Keys == before.Keys
    && forall k :: k in before ==>
      if k.1 != epoch then after[k] == before[k]
      else HasObserved(after[k], before[k], CommissionsIn(LogOf(commissions, k.0), epoch))
  }

  /** What closing an epoch does: nothing if the record cannot be made; else the record
      and the effective commissions are there in any case, and the uptimes and observed
      commissions unless the uptimes are undefined. */
  ghost predicate Closed(info: seq<ClusterInfo>, uptimes: seq<Up.UptimeRow>, commissions: seq<LogRow<int>>,
                         finalized: map<string, Option<int>>, epoch: nat,
                         before: Tables, done: Result<(), SqlError>, after: Tables)
  {
    var recording := Recording(info, before.epochs, epoch);
    if recording.Failure? then done == recording && after == before
    else
      && after.epochs == before.epochs[epoch := EpochRecord(info, before.epochs, epoch).value]
      && Finished(after.epochs, before.validators, epoch, finalized, uptimes, commissions, done, after.validators)
  }

  ghost predicate Finished(epochs: map<nat, EpochRow>, before: Rows, epoch: nat, finalized: map<string, Option<int>>,
                           uptimes: seq<Up.UptimeRow>, commissions: seq<LogRow<int>>, done: Result<(), SqlError>,
                           after: Rows)
    requires epoch in epochs
  {
    if Undefined(epochs, before.Keys, uptimes, epoch) then
      done == Failure(DivisionByZero) && FinalizedAll(before, epoch, finalized, after)
    else
      done.Success? && Completed(before, epoch, finalized, epochs[epoch], uptimes, commissions, after)
  }

  lemma {:induction false} CompletedBy(before: Rows, epoch: nat, finalized: map<string, Option<int>>, row: EpochRow,
    uptimes: seq<Up.UptimeRow>, commissions: seq<LogRow<int>>, final: Rows, timed: Rows, after: Rows)
    requires FinalizedAll(before, epoch, finalized, final) && TimedAll(final, row, uptimes, epoch, timed)
    requires ObservedAll(timed, commissions, epoch, after)
    ensures Completed(before, epoch, finalized, row, uptimes, commissions, after)
  {
  }

  ghost predicate Completed(before: Rows, epoch: nat, finalized: map<string, Option<int>>, row: EpochRow,
                            uptimes: seq<Up.UptimeRow>, commissions: seq<LogRow<int>>, after: Rows)
  {
    exists final, timed ::
      && FinalizedAll(before, epoch, finalized, final)
      && TimedAll(final, row, uptimes, epoch, timed)
      && ObservedAll(timed, commissions, epoch, after)
  }

  /** Whether the record of an epoch can be made: there is cluster info for it, and no
      record yet. */
  function Recording(info: seq<ClusterInfo>, epochs: map<nat, EpochRow>, epoch: nat): Result<(), SqlError> {
    if EpochRecord(info, epochs, epoch).None? then Failure(NullViolation)
    else if epoch in epochs then Failure(DuplicateKey)
    else Success(())
  }

  /** The epoch has no duration and one of its validators has down rows. */
  ghost predicate Undefined(
      epochs: map<nat, EpochRow>, keys: set<(string, nat)>, uptimes: seq<Up.UptimeRow>, epoch: nat) {
    && epoch in epochs && epochs[epoch].endAt == epochs[epoch].startAt
    && exists k :: k in keys && k.1 == epoch && Downtime(uptimes, k.0, epoch).Some?
  }

  function WithObserved(v: ValidatorRow, logged: seq<int>): ValidatorRow {
    v.(commissionMax := Greatest([MaxOf(logged), v.commissionAdvertised, v.commissionEffective]),
       commissionMin := Least([MinOf(logged), v.commissionAdvertised, v.commissionEffective]))
  }

  /** A commission of a validator in an epoch: logged, advertised or effective. */
  ghost predicate Commission(v: ValidatorRow, logged: seq<int>, x: int) {
    x in logged || v.commissionAdvertised == Some(x) || v.commissionEffective == Some(x)
  }

  ghost predicate IsLargest(m: Option<int>, v: ValidatorRow, logged: seq<int>) {
    && (m.Some? ==> Commission(v, logged, m.value))
    && forall x :: Commission(v, logged, x) ==> m.Some? && x <= m.value
  }

  ghost predicate IsLeast(m: Option<int>, v: ValidatorRow, logged: seq<int>) {
    && (m.Some? ==> Commission(v, logged, m.value))
    && forall x :: Commission(v, logged, x) ==> m.Some? && m.value <= x
  }

  /** The row with the largest and the least of its commissions, null if it has none,
      and nothing else changed. */
  ghost predicate HasObserved(row: ValidatorRow, before: ValidatorRow, logged: seq<int>) {
    && row == before.(commissionMax := row.commissionMax, commissionMin := row.commissionMin)
    && IsLargest(row.commissionMax, before, logged) && IsLeast(row.commissionMin, before, logged)
  }

  lemma {:induction false} GivenMember(xs: seq<Option<int>>, x: int)
    ensures x in Given(xs) <==> Some(x) in xs
  {
    if xs != [] {
      GivenMember(xs[1..], x);
      assert Some(x) in xs <==> xs[0] == Some(x) || Some(x) in xs[1..];
    }
  }

  lemma {:induction false} ObservedExtremes(v: ValidatorRow, logged: seq<int>)
    ensures HasObserved(WithObserved(v, logged), v, logged)
  {
    var largest := [MaxOf(logged), v.commissionAdvertised, v.commissionEffective];
    var least := [MinOf(logged), v.commissionAdvertised, v.commissionEffective];
    forall x: int ensures
      (x in Given(largest) <==>
        MaxOf(logged) == Some(x) || v.commissionAdvertised == Some(x) || v.commissionEffective == Some(x))
      && (x in Given(least) <==>
        MinOf(logged) == Some(x) || v.commissionAdvertised == Some(x) || v.commissionEffective == Some(x))
    {
      GivenMember(largest, x);
      GivenMember(least, x);
    }
    LargestOf(v, logged, Given(largest));
    LeastOf(v, logged, Given(least));
  }

  lemma {:induction false} LargestOf(v: ValidatorRow, logged: seq<int>, given: seq<int>)
    requires forall x :: x in given <==>
      MaxOf(logged) == Some(x) || v.commissionAdvertised == Some(x) || v.commissionEffective == Some(x)
    ensures IsLargest(MaxOf(given), v, logged)
  {
    var top := MaxOf(logged);
    if top.Some? {
      assert top.value in given;
    }
    forall x | Commission(v, logged, x) ensures MaxOf(given).Some? && x <= MaxOf(given).value {
      assert x in logged || x in given;
    }
  }

  lemma {:induction false} LeastOf(v: ValidatorRow, logged: seq<int>, given: seq<int>)
    requires forall x :: x in given <==>
      MinOf(logged) == Some(x) || v.commissionAdvertised == Some(x) || v.commissionEffective == Some(x)
    ensures IsLeast(MinOf(given), v, logged)
  {
    var bottom := MinOf(logged);
    if bottom.Some? {
      assert bottom.value in given;
    }
    forall x | Commission(v, logged, x) ensures MinOf(given).Some? && MinOf(given).value <= x {
      assert x in logged || x in given;
    }
  }

  predicate WellDefined(row: EpochRow, downtime: Option<int>) {
    downtime.Some? ==> row.endAt - row.startAt != 0
  }

  function WithUptime(v: ValidatorRow, row: EpochRow, downtime: Option<int>): ValidatorRow
    requires WellDefined(row, downtime)
  {
    var duration := row.endAt - row.startAt;
    v.(uptimePct := Some(UptimePct(duration, downtime)), uptime := Some(Uptime(duration, downtime)),
       downtime := Some(if downtime.Some? then downtime.value else 0))
  }

  /** The percentage and the uptime that are stored always agree, and the uptime is what
      is left of the duration after the downtime, never less than nothing. */
  lemma {:induction false} PctMatchesUptime(duration: int, downtime: Option<int>)
    requires 0 < duration && (downtime.Some? ==> 0 <= downtime.value)
    ensures Times(UptimePct(duration, downtime), duration as real) == Uptime(duration, downtime) as real
    ensures 0 <= Uptime(duration, downtime) <= duration
    ensures Uptime(duration, downtime) == duration <==> downtime == None || downtime == Some(0)
  {
    if downtime.Some? {
      var d, t := downtime.value as real, duration as real;
      var q := d / t;
      assert q * t == d && 0.0 <= q;
      assert (1.0 - q) * t == t - d;
      if q <= 1.0 {
        assert (1.0 - q) * t >= 0.0;
      } else {
        assert (q - 1.0) * t > 0.0;
      }
    }
  }

  /* The bound on the downtime of a closed epoch. */

  /** The snapshots of a run, in time, with epochs that do not go back. */
  ghost predicate EpochsAdvance(snapshots: seq<Up.Snapshot>) {
    forall i, j :: 0 <= i < j < |snapshots| ==> snapshots[i].epoch <= snapshots[j].epoch
  }

  /** The cluster info was stored from the same snapshots. */
  ghost predicate SameSnapshots(info: seq<ClusterInfo>, snapshots: seq<Up.Snapshot>) {
    && |info| == |snapshots|
    && forall i :: 0 <= i < |info| ==>
      info[i].epoch == snapshots[i].epoch && info[i].createdAt == snapshots[i].createdAt
  }

  lemma {:induction false} RecordSpansSnapshots(
      info: seq<ClusterInfo>, epochs: map<nat, EpochRow>, epoch: nat, c: ClusterInfo)
    requires EpochRecord(info, epochs, epoch).Some? && c in info && c.epoch == epoch
    ensures c.createdAt <= EpochRecord(info, epochs, epoch).value.endAt
    ensures !(epoch > 0 && epoch - 1 in epochs) ==> EpochRecord(info, epochs, epoch).value.startAt <= c.createdAt
  {
    var own := Filter(info, InEpoch(epoch));
    FilterMember(info, InEpoch(epoch), c);
    TimesBound(own, c);
  }

  lemma {:induction false} TimesBound(own: seq<ClusterInfo>, c: ClusterInfo)
    requires c in own
    ensures var times := Map(TimeOf, own); times != [] && MinOf(times).value <= c.createdAt <= MaxOf(times).value
  {
    var k :| 0 <= k < |own| && own[k] == c;
    assert Map(TimeOf, own)[k] in Map(TimeOf, own);
  }

  /** What a record is: there is one exactly when the epoch has cluster info; it ends at
      the last of it and starts at the end of the record before, or without one at the
      first. */
  lemma {:induction false} RecordIs(info: seq<ClusterInfo>, epochs: map<nat, EpochRow>, epoch: nat)
    ensures var record := EpochRecord(info, epochs, epoch);
      && (record.Some? <==> exists c :: c in info && c.epoch == epoch)
      && (record.Some? ==>
            && IsLastTime(info, epoch, record.value.endAt)
            && if epoch > 0 && epoch - 1 in epochs then record.value.startAt == epochs[epoch - 1].endAt
               else IsFirstTime(info, epoch, record.value.startAt))
  {
    OwnInfo(info, epoch);
    if Filter(info, InEpoch(epoch)) != [] {
      FirstAndLast(info, epoch);
    }
  }

  lemma {:induction false} OwnInfo(info: seq<ClusterInfo>, epoch: nat)
    ensures forall c :: c in Filter(info, InEpoch(epoch)) <==> c in info && c.epoch == epoch
    ensures Filter(info, InEpoch(epoch)) != [] <==> exists c :: c in info && c.epoch == epoch
  {
    var own := Filter(info, InEpoch(epoch));
    forall c ensures c in own <==> c in info && c.epoch == epoch {
      FilterMember(info, InEpoch(epoch), c);
    }
    if own != [] {
      assert own[0] in own;
    }
  }

  lemma {:induction false} FirstAndLast(info: seq<ClusterInfo>, epoch: nat)
    requires Filter(info, InEpoch(epoch)) != []
    ensures var times := Map(TimeOf, Filter(info, InEpoch(epoch)));
      && times != []
      && IsFirstTime(info, epoch, MinOf(times).value) && IsLastTime(info, epoch, MaxOf(times).value)
  {
    var own := Filter(info, InEpoch(epoch));
    OwnInfo(info, epoch);
    TimeAttained(own, MinOf(Map(TimeOf, own)).value);
    TimeAttained(own, MaxOf(Map(TimeOf, own)).value);
    forall c | c in own ensures MinOf(Map(TimeOf, own)).value <= c.createdAt <= MaxOf(Map(TimeOf, own)).value {
      TimesBound(own, c);
    }
  }

  lemma {:induction false} TimeAttained(own: seq<ClusterInfo>, t: int)
    requires t in Map(TimeOf, own)
    ensures exists c :: c in own && c.createdAt == t
  {
    var k :| 0 <= k < |own| && Map(TimeOf, own)[k] == t;
    assert own[k] in own;
  }

  ghost predicate IsLastTime(info: seq<ClusterInfo>, epoch: nat, t: int) {
    && (exists c :: c in info && c.epoch == epoch && c.createdAt == t)
    && forall c :: c in info && c.epoch == epoch ==> c.createdAt <= t
  }

  ghost predicate IsFirstTime(info: seq<ClusterInfo>, epoch: nat, t: int) {
    && (exists c :: c in info && c.epoch == epoch && c.createdAt == t)
    && forall c :: c in info && c.epoch == epoch ==> t <= c.createdAt
  }

  lemma {:induction false} CountsBound(own: seq<ClusterInfo>, c: ClusterInfo)
    requires c in own
    ensures var counts := Map(CountOf, own);
      counts != [] && MinOf(counts).value <= c.transactionCount <= MaxOf(counts).value
  {
    var k :| 0 <= k < |own| && own[k] == c;
    assert Map(CountOf, own)[k] in Map(CountOf, own);
  }

  /** The transactions of an epoch are the largest growth of the counter between any two
      of its snapshots. */
  lemma {:induction false} RecordCountsGrowth(info: seq<ClusterInfo>, epochs: map<nat, EpochRow>, epoch: nat)
    requires EpochRecord(info, epochs, epoch).Some?
    ensures var count := EpochRecord(info, epochs, epoch).value.transactionCount;
      && (exists c, d ::
            c in info && d in info && c.epoch == epoch && d.epoch == epoch
            && count == d.transactionCount - c.transactionCount)
      && (forall c, d :: c in info && d in info && c.epoch == epoch && d.epoch == epoch ==>
        d.transactionCount - c.transactionCount <= count)
  {
    var own := Filter(info, InEpoch(epoch));
    var counts := Map(CountOf, own);
    forall c | c in info && c.epoch == epoch ensures MinOf(counts).value <= c.transactionCount <= MaxOf(counts).value {
      FilterMember(info, InEpoch(epoch), c);
      CountsBound(own, c);
    }
    var k :| 0 <= k < |own| && counts[k] == MinOf(counts).value;
    var l :| 0 <= l < |own| && counts[l] == MaxOf(counts).value;
    FilterMember(info, InEpoch(epoch), own[k]);
    FilterMember(info, InEpoch(epoch), own[l]);
    assert own[k] in own && own[l] in own;
  }

  lemma {:induction false} RecordEnd(
      info: seq<ClusterInfo>, epochs: map<nat, EpochRow>, epoch: nat) returns (c: ClusterInfo)
    requires EpochRecord(info, epochs, epoch).Some?
    ensures c in info && c.epoch == epoch && c.createdAt == EpochRecord(info, epochs, epoch).value.endAt
  {
    var own := Filter(info, InEpoch(epoch));
    var end := EpochRecord(info, epochs, epoch).value.endAt;
    var k :| 0 <= k < |own| && Map(TimeOf, own)[k] == end;
    c := own[k];
    FilterMember(info, InEpoch(epoch), c);
  }

  /** Every snapshot of the epoch lies within its record, also when the record starts
      at the end of the record before. */
  lemma {:induction false} RecordCovers(
      snapshots: seq<Up.Snapshot>, info: seq<ClusterInfo>, epochs: map<nat, EpochRow>, epoch: nat, i: nat)
    requires UptimeHistory.Increasing(snapshots) && EpochsAdvance(snapshots) && SameSnapshots(info, snapshots)
    requires EpochRecord(info, epochs, epoch).Some?
    requires epoch > 0 && epoch - 1 in epochs ==>
      exists j :: 0 <= j < |snapshots| && snapshots[j].epoch == epoch - 1 &&
        snapshots[j].createdAt == epochs[epoch - 1].endAt
    requires i < |snapshots| && snapshots[i].epoch == epoch
    ensures var row := EpochRecord(info, epochs, epoch).value;
      row.startAt <= snapshots[i].createdAt <= row.endAt
  {
    RecordSpansSnapshots(info, epochs, epoch, info[i]);
    if epoch > 0 && epoch - 1 in epochs {
      var j :| 0 <= j < |snapshots| && snapshots[j].epoch == epoch - 1 &&
        snapshots[j].createdAt == epochs[epoch - 1].endAt;
      assert j < i;
    }
  }

  /** When the same snapshots feed the cluster info and the uptimes, no validator is
      down in a closed epoch for its whole duration and six minutes more. */
  lemma {:induction false} ClosedEpochDowntime(
      snapshots: seq<Up.Snapshot>, info: seq<ClusterInfo>, epochs: map<nat, EpochRow>,
                             uptimes: seq<Up.UptimeRow>, epoch: nat, v: string)
    requires UptimeHistory.Increasing(snapshots) && EpochsAdvance(snapshots) && SameSnapshots(info, snapshots)
    requires UptimeHistory.Encodes(uptimes, snapshots)
    requires EpochRecord(info, epochs, epoch).Some?
    requires epoch > 0 && epoch - 1 in epochs ==>
      exists j :: 0 <= j < |snapshots| && snapshots[j].epoch == epoch - 1 &&
        snapshots[j].createdAt == epochs[epoch - 1].endAt
    ensures var row := EpochRecord(info, epochs, epoch).value;
      var downtime := Downtime(uptimes, v, epoch);
      && row.startAt <= row.endAt
      && (downtime.Some? ==> 0 <= downtime.value < row.endAt - row.startAt + 6 * Up.MINUTE)
  {
    var row, history := EpochRecord(info, epochs, epoch).value, UptimeHistory.Sightings(snapshots, v);
    var c := RecordEnd(info, epochs, epoch);
    var k :| 0 <= k < |info| && info[k] == c;
    RecordCovers(snapshots, info, epochs, epoch, k);
    UptimeHistory.SightingsInOrder(snapshots, v);
    forall i | 0 <= i < |history| && history[i].epoch == epoch ensures row.startAt <= history[i].at <= row.endAt {
      assert history[i] in history;
      var j :| 0 <= j < |snapshots| && snapshots[j].createdAt == history[i].at &&
        snapshots[j].epoch == history[i].epoch;
      RecordCovers(snapshots, info, epochs, epoch, j);
    }
    DowntimeBound(history, epoch, row.startAt, row.endAt);
  }

  ghost predicate SeenDown(history: seq<Up.Sighting>, epoch: nat) {
    exists i :: 0 <= i < |history| && history[i].status == Up.Down && history[i].epoch == epoch
  }

  /** The down time of a validator in an epoch is exactly the time for which its down
      sightings of the epoch speak; it is null exactly when there is none. */
  lemma {:induction false} DowntimeIsObserved(
      snapshots: seq<Up.Snapshot>, uptimes: seq<Up.UptimeRow>, epoch: nat, v: string)
    requires UptimeHistory.Increasing(snapshots) && UptimeHistory.Encodes(uptimes, snapshots)
    ensures var history := UptimeHistory.Sightings(snapshots, v);
      Downtime(uptimes, v, epoch) == if SeenDown(history, epoch) then Some(Observed(history, DownIn(epoch))) else None
  {
    var history, p := UptimeHistory.Sightings(snapshots, v), DownIn(epoch);
    UptimeHistory.SightingsInOrder(snapshots, v);
    if history != [] {
      UptimeHistory.LogInvariant(history);
    }
    SpanIsObserved(history, p);
    SpanSome(UptimeHistory.Log(history), p);
    ObservedSome(history, p);
    if i :| 0 <= i < |history| && p(history[i].status, history[i].epoch) {
      assert history[i].status == Up.Down && history[i].epoch == epoch;
    }
  }

  lemma {:induction false} OneRecord(s: Up.Snapshot, transactions: int, epochs: map<nat, EpochRow>)
    requires !(s.epoch > 0 && s.epoch - 1 in epochs)
    ensures EpochRecord([ClusterInfo(s.epoch, s.createdAt, transactions)], epochs, s.epoch)
      == Some(EpochRow(s.createdAt, s.createdAt, 0))
  {
    var info := [ClusterInfo(s.epoch, s.createdAt, transactions)];
    assert Filter(info, InEpoch(s.epoch)) == info;
    assert Map(TimeOf, info) == [s.createdAt] && Map(CountOf, info) == [transactions];
  }

  lemma {:induction false} OneDowntime(s: Up.Snapshot, uptimes: seq<Up.UptimeRow>, v: string)
    requires v in s.delinquent && s.delinquent[v] && Up.Stored([], s, uptimes)
    ensures Downtime(uptimes, v, s.epoch).Some?
  {
    UptimeHistory.StoredEncodes([], s, [], uptimes);
    assert [] + [s] == [s];
    DowntimeIsObserved([s], uptimes, s.epoch, v);
    var history := UptimeHistory.Sightings([s], v);
    assert history == [] + [Up.SightingOf(s, v)];
    assert history[0].status == Up.Down && history[0].epoch == s.epoch;
  }

  /** A reachable database whose epoch cannot be closed: one snapshot of the epoch, no
      record of the epoch before, and a validator that was down. */
  lemma {:induction false} OneSnapshotFails(
    s: Up.Snapshot, transactions: int, uptimes: seq<Up.UptimeRow>, commissions: seq<LogRow<int>>,
    finalized: map<string, Option<int>>, before: Tables, done: Result<(), SqlError>, after: Tables, v: string)
    requires v in s.delinquent && s.delinquent[v] && (v, s.epoch) in before.validators
    requires s.epoch !in before.epochs && !(s.epoch > 0 && s.epoch - 1 in before.epochs)
    requires Up.Stored([], s, uptimes)
    requires Closed([ClusterInfo(s.epoch, s.createdAt, transactions)], uptimes, commissions, finalized, s.epoch,
      before, done, after)
    ensures done == Failure(DivisionByZero)
  {
    OneRecord(s, transactions, before.epochs);
    OneDowntime(s, uptimes, v);
    assert Undefined(after.epochs, before.validators.Keys, uptimes, s.epoch);
  }

  lemma {:induction false} RecordStays(info: seq<ClusterInfo>, more: seq<ClusterInfo>, epochs: map<nat, EpochRow>,
                                       later: map<nat, EpochRow>, epoch: nat)
    requires EpochRecord(info, epochs, epoch).Some?
    ensures EpochRecord(info + more, later, epoch).Some?
  {
    FilterConcat(info, more, InEpoch(epoch));
    var own := Filter(info + more, InEpoch(epoch));
    assert own != [];
    TimesBound(own, own[0]);
  }

  /** After such a failure the record of the epoch stays, so every later attempt fails on
      its key, whatever was collected meanwhile, and changes nothing: the uptimes and the
      observed commissions of the epoch are never stored. */
  lemma {:induction false} FailedCloseIsFinal(
    info: seq<ClusterInfo>, uptimes: seq<Up.UptimeRow>, commissions: seq<LogRow<int>>,
    finalized: map<string, Option<int>>,
    more: seq<ClusterInfo>, uptimes': seq<Up.UptimeRow>, commissions': seq<LogRow<int>>,
    finalized': map<string, Option<int>>,
    epoch: nat, before: Tables, between: Tables, again: Result<(), SqlError>, after: Tables)
    requires Closed(info, uptimes, commissions, finalized, epoch, before, Failure(DivisionByZero), between)
    requires Closed(info + more, uptimes', commissions', finalized', epoch, between, again, after)
    ensures again == Failure(DuplicateKey) && after == between
    ensures forall k :: k in before.validators ==>
      k in after.validators && IsFinal(after.validators[k], before.validators[k], k, epoch, finalized)
  {
    RecordStays(info, more, before.epochs, between.epochs, epoch);
  }

  /* The observed commissions. */

  lemma {:induction false} CommissionMember(log: seq<Entry<int>>, epoch: nat, x: int)
    ensures x in CommissionsIn(log, epoch) <==> x in ValuesIn(log, epoch)
  {
    var own := Filter(log, OfEpoch(epoch));
    if x in CommissionsIn(log, epoch) {
      var k :| 0 <= k < |own| && CommissionsIn(log, epoch)[k] == x;
      FilterMember(log, OfEpoch(epoch), own[k]);
      var i :| 0 <= i < |log| && log[i] == own[k];
    }
    if x in ValuesIn(log, epoch) {
      var i :| 0 <= i < |log| && log[i].epoch == epoch && log[i].value == x;
      FilterMember(log, OfEpoch(epoch), log[i]);
      var k :| 0 <= k < |own| && own[k] == log[i];
      assert CommissionsIn(log, epoch)[k] == x;
    }
  }

  /** When the log holds what the snapshots said, the observed columns are the extremes
      over all snapshots of the epoch and the advertised and effective commissions. */
  lemma {:induction false} ObservedOverSnapshots(
      snapshots: seq<ChangeLog.Snapshot<int>>, commissions: seq<LogRow<int>>, epoch: nat, v: string,
                               before: ValidatorRow, after: ValidatorRow)
    requires ChangeLog.Increasing(snapshots) && ChangeLog.Encodes(commissions, snapshots)
    ensures HasObserved(after, before, CommissionsIn(LogOf(commissions, v), epoch))
      <==> HasObserved(after, before, CommissionsIn(ChangeLog.Sightings(snapshots, v), epoch))
  {
    var logged, seen := CommissionsIn(LogOf(commissions, v), epoch),
      CommissionsIn(ChangeLog.Sightings(snapshots, v), epoch);
    forall x ensures Commission(before, logged, x) <==> Commission(before, seen, x) {
      ObservedValues(snapshots, commissions, epoch, v, x);
    }
  }

  /** The deduplicated log has the commissions of an epoch that the snapshots had. */
  lemma {:induction false} ObservedValues(
      snapshots: seq<ChangeLog.Snapshot<int>>, commissions: seq<LogRow<int>>, epoch: nat, v: string, x: int)
    requires ChangeLog.Increasing(snapshots) && ChangeLog.Encodes(commissions, snapshots)
    ensures x in CommissionsIn(LogOf(commissions, v), epoch) <==>
      x in CommissionsIn(ChangeLog.Sightings(snapshots, v), epoch)
  {
    var history := ChangeLog.Sightings(snapshots, v);
    ChangeLog.SightingsInOrder(snapshots, v);
    LogKeepsValues(history, epoch);
    CommissionMember(ChangeLog.Log(history), epoch, x);
    CommissionMember(history, epoch, x);
  }

  lemma {:induction false} SameExtremes(a: seq<int>, b: seq<int>)
    requires forall x :: x in a <==> x in b
    ensures MaxOf(a) == MaxOf(b) && MinOf(a) == MinOf(b)
  {
    if a != [] {
      assert a[0] in a;
    }
    if b != [] {
      assert b[0] in b;
    }
  }

  /** The minimum and maximum that closing the epoch takes over the deduplicated log are
      those over all snapshots of the epoch. */
  lemma {:induction false} ObservedCommissions(
      snapshots: seq<ChangeLog.Snapshot<int>>, commissions: seq<LogRow<int>>, epoch: nat, v: string)
    requires ChangeLog.Increasing(snapshots) && ChangeLog.Encodes(commissions, snapshots)
    ensures var logged, seen := CommissionsIn(LogOf(commissions, v), epoch),
      CommissionsIn(ChangeLog.Sightings(snapshots, v), epoch);
      MaxOf(logged) == MaxOf(seen) && MinOf(logged) == MinOf(seen)
  {
    var logged, seen := CommissionsIn(LogOf(commissions, v), epoch),
      CommissionsIn(ChangeLog.Sightings(snapshots, v), epoch);
    forall x ensures x in logged <==> x in seen {
      ObservedValues(snapshots, commissions, epoch, v, x);
    }
    SameExtremes(logged, seen);
  }

  /* What a closed epoch says, on the snapshots. */

  /** How one row of a closed epoch came about. */
  lemma {:induction false} ClosedRow(
    info: seq<ClusterInfo>, uptimes: seq<Up.UptimeRow>, commissions: seq<LogRow<int>>,
    finalized: map<string, Option<int>>, epoch: nat, before: Tables, after: Tables, k: (string, nat))
    returns (final: ValidatorRow, timed: ValidatorRow)
    requires Closed(info, uptimes, commissions, finalized, epoch, before, Success(()), after)
    requires k in before.validators && k.1 == epoch
    ensures k in after.validators && epoch in after.epochs
    ensures IsFinal(final, before.validators[k], k, epoch, finalized)
    ensures HasUptime(timed, final, after.epochs[epoch], Downtime(uptimes, k.0, epoch))
    ensures HasObserved(after.validators[k], timed, CommissionsIn(LogOf(commissions, k.0), epoch))
  {
    var finals, times :|
      && FinalizedAll(before.validators, epoch, finalized, finals)
      && TimedAll(finals, after.epochs[epoch], uptimes, epoch, times)
      && ObservedAll(times, commissions, epoch, after.validators);
    final, timed := finals[k], times[k];
  }

  lemma {:induction false} DownTotal(snapshots: seq<Up.Snapshot>, uptimes: seq<Up.UptimeRow>, epoch: nat, v: string)
    requires UptimeHistory.Increasing(snapshots) && UptimeHistory.Encodes(uptimes, snapshots)
    ensures var downtime := Downtime(uptimes, v, epoch);
      var down := Observed(UptimeHistory.Sightings(snapshots, v), DownIn(epoch));
      0 <= down && down == if downtime.Some? then downtime.value else 0
  {
    var history := UptimeHistory.Sightings(snapshots, v);
    DowntimeIsObserved(snapshots, uptimes, epoch, v);
    UptimeHistory.SightingsInOrder(snapshots, v);
    ObservedSome(history, DownIn(epoch));
    if i :| 0 <= i < |history| && DownIn(epoch)(history[i].status, history[i].epoch) {
      assert history[i].status == Up.Down && history[i].epoch == epoch;
    }
  }

  /** After a successful close of an epoch the uptime columns of its validators account
      for exactly the time for which their down sightings of the epoch speak. */
  lemma {:induction false} ClosedUptime(
    snapshots: seq<Up.Snapshot>, info: seq<ClusterInfo>, uptimes: seq<Up.UptimeRow>, commissions: seq<LogRow<int>>,
    finalized: map<string, Option<int>>, epoch: nat, before: Tables, after: Tables, k: (string, nat))
    requires UptimeHistory.Increasing(snapshots) && UptimeHistory.Encodes(uptimes, snapshots)
    requires Closed(info, uptimes, commissions, finalized, epoch, before, Success(()), after)
    requires k in before.validators && k.1 == epoch
    ensures k in after.validators && epoch in after.epochs
    ensures AccountsFor(after.validators[k], after.epochs[epoch],
      Observed(UptimeHistory.Sightings(snapshots, k.0), DownIn(epoch)))
  {
    DownTotal(snapshots, uptimes, epoch, k.0);
    var final, timed := ClosedRow(info, uptimes, commissions, finalized, epoch, before, after, k);
    SameUptime(after.validators[k], timed, final, after.epochs[epoch], Downtime(uptimes, k.0, epoch),
      CommissionsIn(LogOf(commissions, k.0), epoch));
  }

  /** The uptime columns for a record and a down time. */
  ghost predicate AccountsFor(v: ValidatorRow, row: EpochRow, down: int) {
    var duration := row.endAt - row.startAt;
    && v.downtime == Some(down) && v.uptimePct.Some?
    && v.uptime == Some(if down <= duration then duration - down else 0)
    && (0 < duration ==> Times(v.uptimePct.value, duration as real) == v.uptime.value as real)
  }

  lemma {:induction false} SameUptime(
    v: ValidatorRow, timed: ValidatorRow, final: ValidatorRow, row: EpochRow, downtime: Option<int>, logged: seq<int>)
    requires HasUptime(timed, final, row, downtime) && HasObserved(v, timed, logged)
    requires downtime.Some? ==> 0 <= downtime.value
    ensures AccountsFor(v, row, if downtime.Some? then downtime.value else 0)
  {
  }

  /** And the observed commissions are the extremes over all snapshots of the epoch, the
      advertised one, and the effective one that was stored just before. */
  lemma {:induction false} ClosedCommissions(
    snapshots: seq<ChangeLog.Snapshot<int>>, info: seq<ClusterInfo>, uptimes: seq<Up.UptimeRow>,
    commissions: seq<LogRow<int>>, finalized: map<string, Option<int>>, epoch: nat, before: Tables, after: Tables,
    k: (string, nat))
    requires ChangeLog.Increasing(snapshots) && ChangeLog.Encodes(commissions, snapshots)
    requires Closed(info, uptimes, commissions, finalized, epoch, before, Success(()), after)
    requires k in before.validators && k.1 == epoch
    ensures k in after.validators
    ensures HasExtremes(after.validators[k], before.validators[k],
      if k.0 in finalized then finalized[k.0] else before.validators[k].commissionEffective,
      CommissionsIn(ChangeLog.Sightings(snapshots, k.0), epoch))
  {
    var final, timed := ClosedRow(info, uptimes, commissions, finalized, epoch, before, after, k);
    ObservedOverSnapshots(snapshots, commissions, epoch, k.0, timed, after.validators[k]);
    SameExtremesKept(after.validators[k], timed, final, before.validators[k], k, epoch, finalized,
      after.epochs[epoch], Downtime(uptimes, k.0, epoch), CommissionsIn(ChangeLog.Sightings(snapshots, k.0), epoch));
  }

  ghost predicate HasExtremes(v: ValidatorRow, before: ValidatorRow, effective: Option<int>, seen: seq<int>) {
    && v.commissionAdvertised == before.commissionAdvertised && v.commissionEffective == effective
    && IsLargest(v.commissionMax, v, seen) && IsLeast(v.commissionMin, v, seen)
  }

  lemma {:induction false} SameExtremesKept(
    v: ValidatorRow, timed: ValidatorRow, final: ValidatorRow, before: ValidatorRow, k: (string, nat), epoch: nat,
    finalized: map<string, Option<int>>, row: EpochRow, downtime: Option<int>, seen: seq<int>)
    requires k.1 == epoch && IsFinal(final, before, k, epoch, finalized)
    requires HasUptime(timed, final, row, downtime) && HasObserved(v, timed, seen)
    ensures HasExtremes(v, before, if k.0 in finalized then finalized[k.0] else before.commissionEffective, seen)
  {
    assert forall x :: Commission(v, seen, x) <==> Commission(timed, seen, x);
  }
}
