/** The uptime log: every performance snapshot extends, truncates or opens one
    interval per validator it lists. */
module UptimeLog {
  import opened Sequences

  /** Times are in microseconds, the resolution of the database. */
  const MINUTE: int := 60_000_000
  const MAX_DELAY: int := 5 * MINUTE

  datatype Status = Up | Down

  function StatusFromDelinquency(delinquent: bool): Status {
    if delinquent then Down else Up
  }

  datatype Snapshot = Snapshot(epoch: nat, createdAt: int, delinquent: map<string, bool>)

  /** A row of the table; its serial id is its position. */
  datatype UptimeRow = UptimeRow(voteAccount: string, interval: Interval)

  datatype Interval = Interval(status: Status, epoch: nat, startAt: int, endAt: int)

  /** What one snapshot says about one validator. */
  datatype Sighting = Sighting(at: int, epoch: nat, status: Status)

  function SightingOf(s: Snapshot, voteAccount: string): Sighting
    requires voteAccount in s.delinquent
  {
    Sighting(s.createdAt, s.epoch, StatusFromDelinquency(s.delinquent[voteAccount]))
  }

  /* One validator. */

  function Opened(s: Sighting): Interval {
    Interval(s.status, s.epoch, s.at, s.at + MINUTE)
  }

  predicate InReach(newest: Interval, s: Sighting) { newest.endAt + MAX_DELAY > s.at }

  predicate SameState(newest: Interval, s: Sighting) { newest.status == s.status && newest.epoch == s.epoch }

  /** What becomes of the newest interval of a validator that is seen. */
  function Continued(newest: Interval, s: Sighting): Interval {
    if !InReach(newest, s) then newest
    else if SameState(newest, s) then newest.(endAt := s.at + MINUTE)
    else newest.(endAt := s.at)
  }

  /** The intervals of a validator after a sighting, when interval i was the newest. */
  function RecordAt(log: seq<Interval>, i: nat, s: Sighting): seq<Interval>
    requires i < |log|
  {
    log[i := Continued(log[i], s)] + if InReach(log[i], s) && SameState(log[i], s) then [] else [Opened(s)]
  }

  ghost predicate IsNewest(log: seq<Interval>, i: nat) {
    i < |log| && forall k :: 0 <= k < |log| ==> log[k].endAt <= log[i].endAt
  }

  ghost predicate Recorded(before: seq<Interval>, s: Sighting, after: seq<Interval>) {
    if before == [] then after == [Opened(s)]
    else exists i :: IsNewest(before, i) && after == RecordAt(before, i, s)
  }

  /* The table. */

  function Of(voteAccount: string): UptimeRow -> bool {
    (r: UptimeRow) => r.voteAccount == voteAccount
  }

  function IntervalOf(r: UptimeRow): Interval { r.interval }

  function RowsOf(rows: seq<UptimeRow>, voteAccount: string): seq<UptimeRow> {
    Filter(rows, Of(voteAccount))
  }

  /** The intervals of a validator in the order they were opened. */
  function LogOf(rows: seq<UptimeRow>, voteAccount: string): seq<Interval> {
    Map(IntervalOf, RowsOf(rows, voteAccount))
  }

  /** The update by id. */
  function WithEnds(rows: seq<UptimeRow>, ends: map<nat, int>): (r: seq<UptimeRow>)
    ensures |r| == |rows|
  {
    seq(|rows|, k requires 0 <= k < |rows| =>
      if k in ends then rows[k].(interval := rows[k].interval.(endAt := ends[k])) else rows[k])
  }

  /** What storing a snapshot does to the table: each validator of the snapshot gets
      its sighting recorded, nobody else changes. */
  ghost predicate Stored(before: seq<UptimeRow>, s: Snapshot, after: seq<UptimeRow>) {
    forall v ::
      if v in s.delinquent then Recorded(LogOf(before, v), SightingOf(s, v), LogOf(after, v))
      else LogOf(after, v) == LogOf(before, v)
  }

  /** The id of the newest row of every validator; a choice among equally new ones is
      left open, as the query leaves it. */
  ghost predicate AreNewest(rows: seq<UptimeRow>, newest: map<string, nat>) {
    && (forall v :: v in newest ==> newest[v] < |rows| && rows[newest[v]].voteAccount == v)
    && (forall k :: 0 <= k < |rows| ==> rows[k].voteAccount in newest)
    && (forall k, v :: 0 <= k < |rows| && v in newest && rows[k].voteAccount == v ==>
          rows[k].interval.endAt <= rows[newest[v]].interval.endAt)
  }

  predicate Reached(r: UptimeRow, s: Snapshot) {
    r.voteAccount in s.delinquent && InReach(r.interval, SightingOf(s, r.voteAccount))
  }

  predicate Extends(r: UptimeRow, s: Snapshot) {
    Reached(r, s) && SameState(r.interval, SightingOf(s, r.voteAccount))
  }

  function NewEnd(r: UptimeRow, s: Snapshot): int
    requires r.voteAccount in s.delinquent
  {
    Continued(r.interval, SightingOf(s, r.voteAccount)).endAt
  }

  /** The new ends are those of the newest rows in reach, for the validators done. */
  ghost predicate AreEnds(
      rows: seq<UptimeRow>, newest: map<string, nat>, s: Snapshot, done: set<string>, ends: map<nat, int>)
    requires done <= newest.Keys && AreNewest(rows, newest)
  {
    && (forall v :: v in done && Reached(rows[newest[v]], s) ==> newest[v] in ends)
    && (forall k :: k in ends ==>
          && k < |rows| && rows[k].voteAccount in done && newest[rows[k].voteAccount] == k
          && Reached(rows[k], s) && ends[k] == NewEnd(rows[k], s))
  }

  /** The interval opened for a validator of the snapshot, unless it is excepted. */
  function Added(s: Snapshot, except: set<string>, v: string): seq<Interval> {
    if v in s.delinquent && v !in except then [Opened(SightingOf(s, v))] else []
  }

  class UptimeTable {
    var rows: seq<UptimeRow>

    constructor ()
      ensures rows == []
    {
      rows := [];
    }

    method NewestRows() returns (newest: map<string, nat>)
      ensures AreNewest(rows, newest)
    {
      newest := map[];
      for i := 0 to |rows|
        invariant AreNewest(rows[..i], newest)
      {
        var r := rows[i];
        if r.voteAccount !in newest || rows[newest[r.voteAccount]].interval.endAt < r.interval.endAt {
          newest := newest[r.voteAccount := i];
        }
      }
      assert rows[..|rows|] == rows;
    }

    /** Which validators get their newest interval extended, and the new ends. */
    static method Extensions(rows: seq<UptimeRow>, newest: map<string, nat>, s: Snapshot)
      returns (extended: set<string>, ends: map<nat, int>)
      requires AreNewest(rows, newest)
      ensures extended == set v | v in newest && Extends(rows[newest[v]], s)
      ensures AreEnds(rows, newest, s, newest.Keys, ends)
    {
      extended, ends := {}, map[];
      var todo := newest.Keys;
      ghost var done := {};
      while todo != {}
        invariant done + todo == newest.Keys && done !! todo
        invariant extended == set v | v in done && Extends(rows[newest[v]], s)
        invariant AreEnds(rows, newest, s, done, ends)
        decreases todo
      {
        var v :| v in todo;
        var id := newest[v];
        var row := rows[id];
        DoneEnd(rows, newest, s, done, ends, v);
        if v in s.delinquent && InReach(row.interval, SightingOf(s, v)) {
          if SameState(row.interval, SightingOf(s, v)) {
            extended := extended + {v};
            ends := ends[id := s.createdAt + MINUTE];
          } else {
            ends := ends[id := s.createdAt];
          }
        }
        todo, done := todo - {v}, done + {v};
      }
      assert done == newest.Keys;
    }

    method StoreUptime(s: Snapshot)
      modifies this
      ensures Stored(old(rows), s, rows)
    {
      var newest := NewestRows();
      var extended, ends := Extensions(rows, newest, s);
      rows := WithEnds(rows, ends);
      ghost var updated := rows;
      OpenIntervals(s, extended);
      forall v ensures
        if v in s.delinquent then Recorded(LogOf(old(rows), v), SightingOf(s, v), LogOf(rows, v))
        else LogOf(rows, v) == LogOf(old(rows), v)
      {
        assert LogOf(rows, v) == LogOf(updated, v) + Added(s, extended, v);
        UpdatedLog(old(rows), newest, s, ends, v);
      }
    }

    method OpenIntervals(s: Snapshot, except: set<string>)
      modifies this
      ensures forall v :: LogOf(rows, v) == LogOf(old(rows), v) + Added(s, except, v)
    {
      var todo := s.delinquent.Keys;
      while todo != {}
        invariant todo <= s.delinquent.Keys
        invariant forall v :: LogOf(rows, v) == LogOf(old(rows), v) + Added(s, except + todo, v)
        decreases todo
      {
        var v :| v in todo;
        if v !in except {
          var row := UptimeRow(v, Opened(SightingOf(s, v)));
          AppendRow(rows, row);
          rows := rows + [row];
        }
        todo := todo - {v};
      }
    }
  }

  lemma {:induction false} DoneEnd(
      rows: seq<UptimeRow>, newest: map<string, nat>, s: Snapshot, done: set<string>, ends: map<nat, int>, v: string)
    requires done <= newest.Keys && AreNewest(rows, newest) && AreEnds(rows, newest, s, done, ends) && v in newest
    ensures var r := rows[newest[v]];
      if Reached(r, s) then AreEnds(rows, newest, s, done + {v}, ends[newest[v] := NewEnd(r, s)])
      else AreEnds(rows, newest, s, done + {v}, ends)
  {
  }

  lemma {:induction false} AppendRow(rows: seq<UptimeRow>, row: UptimeRow)
    ensures forall v :: LogOf(rows + [row], v) == LogOf(rows, v) + if row.voteAccount == v then [row.interval] else []
  {
    forall v ensures LogOf(rows + [row], v) == LogOf(rows, v) + if row.voteAccount == v then [row.interval] else [] {
      FilterConcat(rows, [row], Of(v));
      MapConcat(IntervalOf, RowsOf(rows, v), RowsOf([row], v));
      assert [row][1..] == [];
    }
  }

  /** Rows of other validators do not matter. */
  lemma {:induction false} SameLog(a: seq<UptimeRow>, b: seq<UptimeRow>, v: string)
    requires |a| == |b|
    requires forall k :: 0 <= k < |a| ==>
      b[k].voteAccount == a[k].voteAccount && (a[k].voteAccount == v ==> b[k] == a[k])
    ensures LogOf(a, v) == LogOf(b, v)
  {
    if a != [] {
      SameLog(a[1..], b[1..], v);
    }
  }

  lemma {:induction false} SplitLog(rows: seq<UptimeRow>, j: nat, v: string)
    requires j < |rows| && rows[j].voteAccount == v
    ensures LogOf(rows, v) == LogOf(rows[..j], v) + [rows[j].interval] + LogOf(rows[j + 1..], v)
  {
    var head, tail := rows[..j], rows[j + 1..];
    assert rows == (head + [rows[j]]) + tail;
    FilterConcat(head + [rows[j]], tail, Of(v));
    MapConcat(IntervalOf, RowsOf(head + [rows[j]], v), RowsOf(tail, v));
    AppendRow(head, rows[j]);
  }

  lemma {:induction false} LogMember(rows: seq<UptimeRow>, v: string, x: Interval)
    ensures x in LogOf(rows, v) <==> exists k :: 0 <= k < |rows| && rows[k] == UptimeRow(v, x)
  {
    if rows != [] {
      LogMember(rows[1..], v, x);
      assert rows == [rows[0]] + rows[1..];
      assert (exists k :: 0 <= k < |rows| && rows[k] == UptimeRow(v, x)) <==> UptimeRow(v, x) in rows;
      assert (exists k :: 0 <= k < |rows[1..]| && rows[1..][k] == UptimeRow(v, x)) <==> UptimeRow(v, x) in rows[1..];
    }
  }

  lemma {:induction false} UpdatedSeen(
      rows: seq<UptimeRow>, newest: map<string, nat>, s: Snapshot, ends: map<nat, int>, v: string) returns (i: nat)
    requires AreNewest(rows, newest) && AreEnds(rows, newest, s, newest.Keys, ends)
    requires v in newest && v in s.delinquent
    ensures var before, after := LogOf(rows, v), LogOf(WithEnds(rows, ends), v);
      && IsNewest(before, i) && before[i] == rows[newest[v]].interval
      && after == before[i := Continued(before[i], SightingOf(s, v))]
  {
    var j, updated := newest[v], WithEnds(rows, ends);
    i := |LogOf(rows[..j], v)|;
    SplitLog(rows, j, v);
    SplitLog(updated, j, v);
    UpdatedAround(rows, newest, s, ends, v);
    NewestInLog(rows, newest, v);
  }

  lemma {:induction false} UpdatedAround(
      rows: seq<UptimeRow>, newest: map<string, nat>, s: Snapshot, ends: map<nat, int>, v: string)
    requires AreNewest(rows, newest) && AreEnds(rows, newest, s, newest.Keys, ends)
    requires v in newest && v in s.delinquent
    ensures var j, updated := newest[v], WithEnds(rows, ends);
      && LogOf(updated[..j], v) == LogOf(rows[..j], v) && LogOf(updated[j + 1..], v) == LogOf(rows[j + 1..], v)
      && updated[j] == UptimeRow(v, Continued(rows[j].interval, SightingOf(s, v)))
  {
    var j, updated := newest[v], WithEnds(rows, ends);
    SameLog(rows[..j], updated[..j], v);
    SameLog(rows[j + 1..], updated[j + 1..], v);
  }

  lemma {:induction false} UpdatedUnseen(
      rows: seq<UptimeRow>, newest: map<string, nat>, s: Snapshot, ends: map<nat, int>, v: string)
    requires AreNewest(rows, newest) && AreEnds(rows, newest, s, newest.Keys, ends)
    requires v !in newest || v !in s.delinquent
    ensures LogOf(WithEnds(rows, ends), v) == LogOf(rows, v)
    ensures v !in newest ==> LogOf(rows, v) == []
  {
    SameLog(rows, WithEnds(rows, ends), v);
    if LogOf(rows, v) != [] {
      LogMember(rows, v, LogOf(rows, v)[0]);
    }
  }

  /** What the update leaves of the log of one validator: the newest interval is
      continued if the validator was seen, the others stay. */
  lemma {:induction false} UpdatedLog(
      rows: seq<UptimeRow>, newest: map<string, nat>, s: Snapshot, ends: map<nat, int>, v: string)
    requires AreNewest(rows, newest) && AreEnds(rows, newest, s, newest.Keys, ends)
    ensures var before, after := LogOf(rows, v), LogOf(WithEnds(rows, ends), v);
      if v in s.delinquent then
        Recorded(before, SightingOf(s, v), after + if v in newest && Extends(rows[newest[v]], s) then []
          else [Opened(SightingOf(s, v))])
      else after == before
  {
    if v in newest && v in s.delinquent {
      var i := UpdatedSeen(rows, newest, s, ends, v);
      var before := LogOf(rows, v);
      assert IsNewest(before, i);
    } else {
      UpdatedUnseen(rows, newest, s, ends, v);
    }
  }

  lemma {:induction false} NewestInLog(rows: seq<UptimeRow>, newest: map<string, nat>, v: string)
    requires AreNewest(rows, newest) && v in newest
    ensures var i := |LogOf(rows[..newest[v]], v)|;
      IsNewest(LogOf(rows, v), i) && LogOf(rows, v)[i] == rows[newest[v]].interval
  {
    SplitLog(rows, newest[v], v);
    var log := LogOf(rows, v);
    forall k | 0 <= k < |log| ensures log[k].endAt <= rows[newest[v]].interval.endAt {
      LogMember(rows, v, log[k]);
      var m :| 0 <= m < |rows| && rows[m] == UptimeRow(v, log[k]);
    }
  }
}
