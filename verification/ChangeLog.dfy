/** The deduplicating change logs: commissions and versions are stored only when they
    differ from the newest stored row of the validator.  Both programs are the same but
    for the type of the value: a number, and a version that may be absent. */
module ChangeLog {
  import opened Sequences
  import opened Wrappers

  datatype Snapshot<V> = Snapshot(epoch: nat, epochSlot: nat, createdAt: int, values: map<string, V>)

  /** A value as it was seen at some time; also a row of the log, without the account. */
  datatype Entry<V> = Entry(value: V, epochSlot: nat, epoch: nat, createdAt: int)

  datatype LogRow<V> = LogRow(voteAccount: string, entry: Entry<V>)

  function EntryOf<V>(s: Snapshot<V>, voteAccount: string): Entry<V>
    requires voteAccount in s.values
  {
    Entry(s.values[voteAccount], s.epochSlot, s.epoch, s.createdAt)
  }

  predicate SameState<V(==)>(a: Entry<V>, b: Entry<V>) { a.epoch == b.epoch && a.value == b.value }

  ghost predicate IsNewest<V>(log: seq<Entry<V>>, i: nat) {
    i < |log| && forall k :: 0 <= k < |log| ==> log[k].createdAt <= log[i].createdAt
  }

  function RecordAt<V(==)>(log: seq<Entry<V>>, i: nat, s: Entry<V>): seq<Entry<V>>
    requires i < |log|
  {
    if SameState(log[i], s) then log else log + [s]
  }

  /** What becomes of the log of a validator that is in a snapshot. */
  ghost predicate Recorded<V>(before: seq<Entry<V>>, s: Entry<V>, after: seq<Entry<V>>) {
    if before == [] then after == [s]
    else exists i :: IsNewest(before, i) && after == RecordAt(before, i, s)
  }

  function Of<V>(voteAccount: string): LogRow<V> -> bool {
    (r: LogRow<V>) => r.voteAccount == voteAccount
  }

  function EntryIn<V>(r: LogRow<V>): Entry<V> { r.entry }

  function LogOf<V>(rows: seq<LogRow<V>>, voteAccount: string): seq<Entry<V>> {
    Map(EntryIn, Filter(rows, Of(voteAccount)))
  }

  ghost predicate Stored<V(!new)>(before: seq<LogRow<V>>, s: Snapshot<V>, after: seq<LogRow<V>>) {
    forall v ::
      if v in s.values then Recorded(LogOf(before, v), EntryOf(s, v), LogOf(after, v))
      else LogOf(after, v) == LogOf(before, v)
  }

  ghost predicate AreNewest<V>(rows: seq<LogRow<V>>, newest: map<string, nat>) {
    && (forall v :: v in newest ==> newest[v] < |rows| && rows[newest[v]].voteAccount == v)
    && (forall k :: 0 <= k < |rows| ==> rows[k].voteAccount in newest)
    && (forall k, v :: 0 <= k < |rows| && v in newest && rows[k].voteAccount == v ==>
          rows[k].entry.createdAt <= rows[newest[v]].entry.createdAt)
  }

  function Added<V>(s: Snapshot<V>, except: set<string>, v: string): seq<Entry<V>> {
    if v in s.values && v !in except then [EntryOf(s, v)] else []
  }

  class ChangeTable<V(==,!new)> {
    var rows: seq<LogRow<V>>

    constructor ()
      ensures rows == []
    {
      rows := [];
    }

    method NewestRows() returns (newest: map<string, nat>)
      ensures AreNewest(rows, newest)
    {
      newest := map[];
      for i := 0 to |rows|
        invariant AreNewest(rows[..i], newest)
      {
        var r := rows[i];
        if r.voteAccount !in newest || rows[newest[r.voteAccount]].entry.createdAt < r.entry.createdAt {
          newest := newest[r.voteAccount := i];
        }
      }
      assert rows[..|rows|] == rows;
    }

    /** The validators whose newest row already says what the snapshot says. */
    method Skipped(newest: map<string, nat>, s: Snapshot<V>) returns (skipped: set<string>)
      requires AreNewest(rows, newest)
      ensures skipped == set v | v in newest && v in s.values && SameState(rows[newest[v]].entry, EntryOf(s, v))
    {
      skipped := {};
      var todo := newest.Keys;
      while todo != {}
        invariant todo <= newest.Keys
        invariant skipped == set v | v in newest && v !in todo && v in s.values &&
          SameState(rows[newest[v]].entry, EntryOf(s, v))
        decreases todo
      {
        var v :| v in todo;
        var entry := rows[newest[v]].entry;
        if v in s.values {
          if entry.epoch == s.epoch && entry.value == s.values[v] {
            skipped := skipped + {v};
          }
        }
        todo := todo - {v};
      }
    }

    method Insert(s: Snapshot<V>, except: set<string>)
      modifies this
      ensures forall v :: LogOf(rows, v) == LogOf(old(rows), v) + Added(s, except, v)
    {
      var todo := s.values.Keys;
      while todo != {}
        invariant todo <= s.values.Keys
        invariant forall v :: LogOf(rows, v) == LogOf(old(rows), v) + Added(s, except + todo, v)
        decreases todo
      {
        var v :| v in todo;
        if v !in except {
          var row := LogRow(v, EntryOf(s, v));
          AppendRow(rows, row);
          rows := rows + [row];
        }
        todo := todo - {v};
      }
    }

    method Store(s: Snapshot<V>)
      modifies this
      ensures Stored(old(rows), s, rows)
    {
      var newest := NewestRows();
      var skipped := Skipped(newest, s);
      Insert(s, skipped);
      forall v ensures
        if v in s.values then Recorded(LogOf(old(rows), v), EntryOf(s, v), LogOf(rows, v))
        else LogOf(rows, v) == LogOf(old(rows), v)
      {
        assert LogOf(rows, v) == LogOf(old(rows), v) + Added(s, skipped, v);
        if v in s.values {
          AddedIsRecorded(old(rows), newest, s, v);
        }
      }
    }
  }

  lemma {:induction false} AddedIsRecorded<V>(rows: seq<LogRow<V>>, newest: map<string, nat>, s: Snapshot<V>, v: string)
    requires AreNewest(rows, newest) && v in s.values
    ensures var skip := v in newest && SameState(rows[newest[v]].entry, EntryOf(s, v));
      Recorded(LogOf(rows, v), EntryOf(s, v), LogOf(rows, v) + if skip then [] else [EntryOf(s, v)])
  {
    var log := LogOf(rows, v);
    if v in newest {
      var i := NewestInLog(rows, newest, v);
      assert IsNewest(log, i);
      assert log + [] == log;
    } else if log != [] {
      LogMember(rows, v, log[0]);
    }
  }

  lemma {:induction false} AppendRow<V>(rows: seq<LogRow<V>>, row: LogRow<V>)
    ensures forall v :: LogOf(rows + [row], v) == LogOf(rows, v) + if row.voteAccount == v then [row.entry] else []
  {
    forall v ensures LogOf(rows + [row], v) == LogOf(rows, v) + if row.voteAccount == v then [row.entry] else [] {
      FilterConcat(rows, [row], Of(v));
      MapConcat(EntryIn, Filter(rows, Of(v)), Filter([row], Of(v)));
      assert [row][1..] == [];
    }
  }

  lemma {:induction false} LogMember<V>(rows: seq<LogRow<V>>, v: string, x: Entry<V>)
    ensures x in LogOf(rows, v) <==> LogRow(v, x) in rows
  {
    if rows != [] {
      LogMember(rows[1..], v, x);
      assert rows == [rows[0]] + rows[1..];
    }
  }

  lemma {:induction false} NewestInLog<V>(rows: seq<LogRow<V>>, newest: map<string, nat>, v: string) returns (i: nat)
    requires AreNewest(rows, newest) && v in newest
    ensures IsNewest(LogOf(rows, v), i) && LogOf(rows, v)[i] == rows[newest[v]].entry
  {
    var log, x := LogOf(rows, v), rows[newest[v]].entry;
    assert LogRow(v, x) in rows;
    LogMember(rows, v, x);
    i :| 0 <= i < |log| && log[i] == x;
    forall k | 0 <= k < |log| ensures log[k].createdAt <= x.createdAt {
      LogMember(rows, v, log[k]);
    }
  }

  /* What the log means. */

  ghost predicate InOrder<V>(history: seq<Entry<V>>) {
    forall i, j :: 0 <= i < j < |history| ==> history[i].createdAt < history[j].createdAt
  }

  /** The log after these sightings, when each finds the newest row last. */
  function Log<V(==)>(history: seq<Entry<V>>): (log: seq<Entry<V>>)
    ensures history != [] ==> log != []
  {
    if history == [] then []
    else
      var before, s := Log(history[..|history| - 1]), history[|history| - 1];
      if before == [] then [s] else RecordAt(before, |before| - 1, s)
  }

  /** No two adjacent rows repeat the same epoch and value. */
  ghost predicate NoRepeats<V>(log: seq<Entry<V>>) {
    forall k :: 0 <= k < |log| - 1 ==> log[k].epoch != log[k + 1].epoch || log[k].value != log[k + 1].value
  }

  ghost predicate CarriesLast<V>(log: seq<Entry<V>>, s: Entry<V>) {
    log != [] && log[|log| - 1].createdAt <= s.createdAt && SameState(log[|log| - 1], s)
  }

  lemma {:induction false} RecordKeepsInvariant<V>(log: seq<Entry<V>>, latest: Entry<V>, s: Entry<V>)
    requires InOrder(log) && NoRepeats(log) && CarriesLast(log, latest) && latest.createdAt < s.createdAt
    ensures var after := RecordAt(log, |log| - 1, s); InOrder(after) && NoRepeats(after) && CarriesLast(after, s)
  {
    assert forall k :: 0 <= k < |log| ==> log[k].createdAt <= log[|log| - 1].createdAt;
  }

  /** Invariant over all runs: the log is in the order of time, no two adjacent rows say
      the same, and the last one says what the last sighting said. */
  lemma {:induction false} LogInvariant<V>(history: seq<Entry<V>>)
    requires InOrder(history)
    ensures InOrder(Log(history)) && NoRepeats(Log(history))
    ensures history != [] ==> CarriesLast(Log(history), history[|history| - 1])
  {
    if history != [] {
      var n := |history| - 1;
      var earlier := history[..n];
      LogInvariant(earlier);
      if earlier != [] {
        RecordKeepsInvariant(Log(earlier), earlier[n - 1], history[n]);
      }
    }
  }

  lemma {:induction false} NewestIsLast<V>(log: seq<Entry<V>>, i: nat)
    requires InOrder(log) && log != []
    ensures IsNewest(log, i) <==> i == |log| - 1
  {
    if i < |log| - 1 {
      assert log[i].createdAt < log[|log| - 1].createdAt;
    }
  }

  lemma {:induction false} RecordedIsLog<V>(history: seq<Entry<V>>, s: Entry<V>, after: seq<Entry<V>>)
    requires InOrder(history)
    ensures Recorded(Log(history), s, after) <==> after == Log(history + [s])
  {
    assert (history + [s])[..|history|] == history;
    LogInvariant(history);
    if history != [] {
      var log := Log(history);
      forall i: nat ensures IsNewest(log, i) <==> i == |log| - 1 {
        NewestIsLast(log, i);
      }
      assert IsNewest(log, |log| - 1);
    }
  }

  /** The newest entry at an instant. */
  function AsOf<V>(log: seq<Entry<V>>, t: int): Option<Entry<V>> {
    if log == [] then None
    else
      var last := log[|log| - 1];
      if last.createdAt <= t then Some(last) else AsOf(log[..|log| - 1], t)
  }

  /** Two answers agree on the epoch and the value. */
  ghost predicate Agree<V>(a: Option<Entry<V>>, b: Option<Entry<V>>) {
    if a.Some? && b.Some? then a.value.epoch == b.value.epoch && a.value.value == b.value.value
    else a.None? && b.None?
  }

  lemma {:induction false} AsOfSnoc<V>(log: seq<Entry<V>>, s: Entry<V>, t: int)
    ensures AsOf(log + [s], t) == if s.createdAt <= t then Some(s) else AsOf(log, t)
  {
    assert (log + [s])[..|log|] == log;
  }

  /** Lossless: at every instant the log answers with the epoch and value of the latest
      sighting. */
  lemma {:induction false} LogIsLossless<V>(history: seq<Entry<V>>, t: int)
    requires InOrder(history)
    ensures Agree(AsOf(Log(history), t), AsOf(history, t))
  {
    if history != [] {
      var n := |history| - 1;
      var earlier, s := history[..n], history[n];
      assert history == earlier + [s];
      LogIsLossless(earlier, t);
      LogInvariant(earlier);
      AsOfSnoc(earlier, s, t);
      AsOfSnoc(Log(earlier), s, t);
      if earlier == [] {
        assert Log(history) == [] + [s];
      }
    }
  }

  /** At the time of a sighting the newest row carries it. */
  lemma {:induction false} SightingIsLogged<V>(history: seq<Entry<V>>, i: nat)
    requires InOrder(history) && i < |history|
    ensures var answer := AsOf(Log(history), history[i].createdAt);
      answer.Some? && SameState(answer.value, history[i])
  {
    LogIsLossless(history, history[i].createdAt);
    AsOfSighting(history, i);
  }

  lemma {:induction false} AsOfSighting<V>(history: seq<Entry<V>>, i: nat)
    requires InOrder(history) && i < |history|
    ensures AsOf(history, history[i].createdAt) == Some(history[i])
  {
    var n := |history| - 1;
    if i < n {
      AsOfSighting(history[..n], i);
    }
  }

  /** The values of an epoch. */
  function ValuesIn<V(==)>(log: seq<Entry<V>>, epoch: nat): set<V> {
    set k | 0 <= k < |log| && log[k].epoch == epoch :: log[k].value
  }

  /** The log has the values of every epoch that the snapshots had, so any minimum or
      maximum over an epoch is the same. */
  lemma {:induction false} LogKeepsValues<V>(history: seq<Entry<V>>, epoch: nat)
    requires InOrder(history)
    ensures ValuesIn(Log(history), epoch) == ValuesIn(history, epoch)
  {
    if history != [] {
      var n := |history| - 1;
      var earlier, s := history[..n], history[n];
      LogKeepsValues(earlier, epoch);
      LogInvariant(earlier);
      assert history == earlier + [s];
      ValuesSnoc(earlier, s, epoch);
      ValuesSnoc(Log(earlier), s, epoch);
      if earlier == [] {
        assert Log(history) == [] + [s];
      } else if SameState(Log(earlier)[|Log(earlier)| - 1], s) {
        assert Log(history) == Log(earlier);
        assert s.epoch == epoch ==> s.value in ValuesIn(Log(earlier), epoch);
      }
    }
  }

  lemma {:induction false} ValuesSnoc<V>(log: seq<Entry<V>>, s: Entry<V>, epoch: nat)
    ensures ValuesIn(log + [s], epoch) == ValuesIn(log, epoch) + if s.epoch == epoch then {s.value} else {}
  {
    var all := log + [s];
    forall x ensures x in ValuesIn(all, epoch) <==> x in ValuesIn(log, epoch) || (s.epoch == epoch && x == s.value) {
      if x in ValuesIn(log, epoch) {
        var k :| 0 <= k < |log| && log[k].epoch == epoch && log[k].value == x;
        assert all[k] == log[k];
      }
      if s.epoch == epoch && x == s.value {
        assert all[|log|] == s;
      }
    }
  }

  /* Runs over whole snapshots. */

  ghost predicate Increasing<V>(snapshots: seq<Snapshot<V>>) {
    forall i, j :: 0 <= i < j < |snapshots| ==> snapshots[i].createdAt < snapshots[j].createdAt
  }

  function Sightings<V>(snapshots: seq<Snapshot<V>>, voteAccount: string): (history: seq<Entry<V>>) {
    if snapshots == [] then []
    else
      var n := |snapshots| - 1;
      var earlier := Sightings(snapshots[..n], voteAccount);
      if voteAccount in snapshots[n].values then earlier + [EntryOf(snapshots[n], voteAccount)] else earlier
  }

  ghost predicate Encodes<V(!new)>(rows: seq<LogRow<V>>, snapshots: seq<Snapshot<V>>) {
    forall v :: LogOf(rows, v) == Log(Sightings(snapshots, v))
  }

  lemma {:induction false} SightingsInOrder<V>(snapshots: seq<Snapshot<V>>, v: string)
    requires Increasing(snapshots)
    ensures InOrder(Sightings(snapshots, v))
    ensures forall s :: s in Sightings(snapshots, v) ==> exists i ::
      0 <= i < |snapshots| && snapshots[i].createdAt == s.createdAt
  {
    if snapshots != [] {
      var n := |snapshots| - 1;
      SightingsInOrder(snapshots[..n], v);
      var h := Sightings(snapshots[..n], v);
      forall i | 0 <= i < |h| ensures h[i].createdAt < snapshots[n].createdAt {
        assert h[i] in h;
      }
      forall s | s in Sightings(snapshots, v)
        ensures exists i :: 0 <= i < |snapshots| && snapshots[i].createdAt == s.createdAt
      {
        if s in h {
          var i :| 0 <= i < n && snapshots[..n][i].createdAt == s.createdAt;
          assert snapshots[i].createdAt == s.createdAt;
        } else {
          assert snapshots[n].createdAt == s.createdAt;
        }
      }
    }
  }

  /** Refinement: storing a snapshot takes the table of a run to the table of the
      longer run, and to no other. */
  lemma {:induction false} StoredEncodes<V(!new)>(
      snapshots: seq<Snapshot<V>>, s: Snapshot<V>, before: seq<LogRow<V>>, after: seq<LogRow<V>>)
    requires Increasing(snapshots) && Encodes(before, snapshots)
    ensures Stored(before, s, after) <==> Encodes(after, snapshots + [s])
  {
    assert (snapshots + [s])[..|snapshots|] == snapshots;
    forall v ensures
      (if v in s.values then Recorded(LogOf(before, v), EntryOf(s, v), LogOf(after, v))
        else LogOf(after, v) == LogOf(before, v))
      <==> LogOf(after, v) == Log(Sightings(snapshots + [s], v))
    {
      SightingsInOrder(snapshots, v);
      if v in s.values {
        RecordedIsLog(Sightings(snapshots, v), EntryOf(s, v), LogOf(after, v));
      }
    }
  }

  /** The tables of a run that starts with an empty one. */
  ghost predicate IsRun<V(!new)>(tables: seq<seq<LogRow<V>>>, snapshots: seq<Snapshot<V>>) {
    && |tables| == |snapshots| + 1 && tables[0] == []
    && forall i :: 0 <= i < |snapshots| ==> Stored(tables[i], snapshots[i], tables[i + 1])
  }

  lemma {:induction false} RunEncodes<V(!new)>(tables: seq<seq<LogRow<V>>>, snapshots: seq<Snapshot<V>>)
    requires Increasing(snapshots) && IsRun(tables, snapshots)
    ensures Encodes(tables[|snapshots|], snapshots)
  {
    if snapshots != [] {
      var n := |snapshots| - 1;
      RunEncodes(tables[..n + 1], snapshots[..n]);
      assert snapshots[..n] + [snapshots[n]] == snapshots;
      assert Stored(tables[n], snapshots[n], tables[n + 1]);
      StoredEncodes(snapshots[..n], snapshots[n], tables[n], tables[n + 1]);
    }
  }

  /** Over whole runs: the rows of a validator never repeat themselves, and at every
      instant the newest of them says what its latest sighting said. */
  lemma {:induction false} RunIsLossless<V(!new)>(
      tables: seq<seq<LogRow<V>>>, snapshots: seq<Snapshot<V>>, v: string, t: int)
    requires Increasing(snapshots) && IsRun(tables, snapshots)
    ensures var log := LogOf(tables[|snapshots|], v);
      NoRepeats(log) && Agree(AsOf(log, t), AsOf(Sightings(snapshots, v), t))
  {
    RunEncodes(tables, snapshots);
    SightingsInOrder(snapshots, v);
    LogInvariant(Sightings(snapshots, v));
    LogIsLossless(Sightings(snapshots, v), t);
  }

  /* The table and the snapshots themselves. */

  lemma {:induction false} SightingIndex<V>(snapshots: seq<Snapshot<V>>, v: string, i: nat) returns (j: nat)
    requires i < |snapshots| && v in snapshots[i].values
    ensures j < |Sightings(snapshots, v)|
    ensures var s := snapshots[i]; Sightings(snapshots, v)[j] == Entry(s.values[v], s.epochSlot, s.epoch, s.createdAt)
  {
    var n := |snapshots| - 1;
    if i < n {
      j := SightingIndex(snapshots[..n], v, i);
    } else {
      j := |Sightings(snapshots[..n], v)|;
    }
  }

  lemma {:induction false} SightingOrigin<V>(snapshots: seq<Snapshot<V>>, v: string, j: nat) returns (i: nat)
    requires j < |Sightings(snapshots, v)|
    ensures i < |snapshots| && v in snapshots[i].values
    ensures var s := snapshots[i]; Sightings(snapshots, v)[j] == Entry(s.values[v], s.epochSlot, s.epoch, s.createdAt)
  {
    var n := |snapshots| - 1;
    if j < |Sightings(snapshots[..n], v)| {
      i := SightingOrigin(snapshots[..n], v, j);
    } else {
      i := n;
    }
  }

  lemma {:induction false} LogFromHistory<V>(history: seq<Entry<V>>, k: nat) returns (j: nat)
    requires k < |Log(history)|
    ensures j < |history| && history[j] == Log(history)[k]
  {
    var n := |history| - 1;
    if k < |Log(history[..n])| {
      j := LogFromHistory(history[..n], k);
    } else {
      j := n;
    }
  }

  /** The newest row at an instant. */
  ghost predicate IsNewestAt<V>(log: seq<Entry<V>>, k: nat, t: int)
    requires k < |log|
  {
    log[k].createdAt <= t && forall l :: k < l < |log| ==> t < log[l].createdAt
  }

  lemma {:induction false} AsOfIsNewest<V>(log: seq<Entry<V>>, t: int) returns (k: nat)
    requires AsOf(log, t).Some?
    ensures k < |log| && IsNewestAt(log, k, t) && log[k] == AsOf(log, t).value
  {
    k := |log| - 1;
    if log[k].createdAt > t {
      var n := k;
      k := AsOfIsNewest(log[..n], t);
      forall l | k < l < |log| ensures t < log[l].createdAt {
        if l < n {
          assert log[..n][l] == log[l];
        }
      }
    }
  }

  /** On the snapshots themselves: at the time of a snapshot the newest row of every
      validator it lists has the value and the epoch of that snapshot. */
  lemma {:induction false} RunRecordsValues<V(!new)>(
      tables: seq<seq<LogRow<V>>>, snapshots: seq<Snapshot<V>>, v: string, i: nat)
    requires Increasing(snapshots) && IsRun(tables, snapshots) && i < |snapshots| && v in snapshots[i].values
    ensures var log, s := LogOf(tables[|snapshots|], v), snapshots[i];
      exists k :: 0 <= k < |log| && IsNewestAt(log, k, s.createdAt)
        && log[k].value == s.values[v] && log[k].epoch == s.epoch
  {
    var log, history := LogOf(tables[|snapshots|], v), Sightings(snapshots, v);
    var j := SightingIndex(snapshots, v, i);
    RunEncodes(tables, snapshots);
    SightingsInOrder(snapshots, v);
    SightingIsLogged(history, j);
    var k := AsOfIsNewest(log, snapshots[i].createdAt);
  }

  ghost predicate Said<V>(s: Snapshot<V>, v: string, row: Entry<V>) {
    v in s.values && row == Entry(s.values[v], s.epochSlot, s.epoch, s.createdAt)
  }

  /** And every row is what some snapshot said, with its slot and its time. */
  lemma {:induction false} RunRowsFromSnapshots<V(!new)>(
      tables: seq<seq<LogRow<V>>>, snapshots: seq<Snapshot<V>>, v: string, k: nat)
    requires Increasing(snapshots) && IsRun(tables, snapshots) && k < |LogOf(tables[|snapshots|], v)|
    ensures exists i :: 0 <= i < |snapshots| && Said(snapshots[i], v, LogOf(tables[|snapshots|], v)[k])
  {
    RunEncodes(tables, snapshots);
    var j := LogFromHistory(Sightings(snapshots, v), k);
    var i := SightingOrigin(snapshots, v, j);
  }
}
