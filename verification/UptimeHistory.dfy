/** What the uptime log means: for snapshots in the order of time, the intervals of a
    validator encode everything that was observed about it. */
module UptimeHistory {
  import opened Sequences
  import opened UptimeLog
  import opened Wrappers

  /** The sightings of one validator, in order. */
  ghost predicate InOrder(history: seq<Sighting>) {
    forall i, j :: 0 <= i < j < |history| ==> history[i].at < history[j].at
  }

  /** The log after these sightings, when each finds the newest interval last. */
  function Log(history: seq<Sighting>): (log: seq<Interval>)
    ensures history != [] ==> log != []
  {
    if history == [] then []
    else
      var before, s := Log(history[..|history| - 1]), history[|history| - 1];
      if before == [] then [Opened(s)] else RecordAt(before, |before| - 1, s)
  }

  /** Intervals that are not empty and follow each other without overlap. */
  ghost predicate Disjoint(log: seq<Interval>) {
    && (forall k :: 0 <= k < |log| ==> log[k].startAt < log[k].endAt)
    && (forall k, l :: 0 <= k < l < |log| ==> log[k].endAt <= log[l].startAt)
  }

  ghost predicate CarriesLast(log: seq<Interval>, s: Sighting) {
    log != [] &&
    var last := log[|log| - 1];
    last.startAt <= s.at && last.endAt == s.at + MINUTE && last.status == s.status && last.epoch == s.epoch
  }

  lemma {:induction false} RecordKeepsInvariant(log: seq<Interval>, latest: Sighting, s: Sighting)
    requires Disjoint(log) && CarriesLast(log, latest) && latest.at < s.at
    ensures var after := RecordAt(log, |log| - 1, s); Disjoint(after) && CarriesLast(after, s)
  {
    var m := |log| - 1;
    var kept := log[m := Continued(log[m], s)];
    assert Disjoint(kept);
    assert forall k :: 0 <= k < |kept| - 1 ==> kept[k].endAt <= kept[m].startAt;
  }

  /** Invariant over all runs: the intervals never overlap, and the last one carries
      the last sighting and ends one minute after it. */
  lemma {:induction false} LogInvariant(history: seq<Sighting>)
    requires InOrder(history) && history != []
    ensures Disjoint(Log(history)) && CarriesLast(Log(history), history[|history| - 1])
  {
    var earlier := history[..|history| - 1];
    if earlier != [] {
      LogInvariant(earlier);
      RecordKeepsInvariant(Log(earlier), earlier[|earlier| - 1], history[|history| - 1]);
    }
  }

  /** The row with the greatest end is the last one and no other. */
  lemma {:induction false} NewestIsLast(history: seq<Sighting>, i: nat)
    requires InOrder(history) && history != []
    ensures IsNewest(Log(history), i) <==> i == |Log(history)| - 1
  {
    LogInvariant(history);
    var log := Log(history);
    var n := |log| - 1;
    if i < n {
      assert log[i].endAt <= log[n].startAt;
    }
    forall k | 0 <= k < |log| ensures log[k].endAt <= log[n].endAt {
      if k < n {
        assert log[k].endAt <= log[n].startAt;
      }
    }
  }

  /** Storing has one possible outcome on the log of a history, whatever the time of
      the snapshot. */
  lemma {:induction false} RecordedIsLog(history: seq<Sighting>, s: Sighting, after: seq<Interval>)
    requires InOrder(history)
    ensures Recorded(Log(history), s, after) <==> after == Log(history + [s])
  {
    assert (history + [s])[..|history|] == history;
    if history != [] {
      forall i: nat ensures IsNewest(Log(history), i) <==> i == |Log(history)| - 1 {
        NewestIsLast(history, i);
      }
      assert IsNewest(Log(history), |Log(history)| - 1);
    }
  }

  /** Recording the latest sighting again changes nothing. */
  lemma {:induction false} RecordedAgain(history: seq<Sighting>, after: seq<Interval>)
    requires InOrder(history) && history != []
    requires Recorded(Log(history), history[|history| - 1], after)
    ensures after == Log(history)
  {
    var log, s := Log(history), history[|history| - 1];
    LogInvariant(history);
    var i :| IsNewest(log, i) && after == RecordAt(log, i, s);
    NewestIsLast(history, i);
  }

  /* Decoding: what the log says about an instant. */

  predicate Covers(row: Interval, x: int) { row.startAt <= x < row.endAt }

  /** The status and epoch of the last row that covers an instant. */
  function Lookup(log: seq<Interval>, x: int): Option<(Status, nat)> {
    if log == [] then None
    else
      var last := log[|log| - 1];
      if Covers(last, x) then Some((last.status, last.epoch)) else Lookup(log[..|log| - 1], x)
  }

  /** Sighting i speaks for an instant: from its own time up to the next sighting if
      that comes in less than six minutes, and for one minute otherwise. */
  ghost predicate SpeaksFor(history: seq<Sighting>, i: nat, x: int)
    requires i < |history|
  {
    && history[i].at <= x
    && if i + 1 < |history| && history[i + 1].at - history[i].at < MAX_DELAY + MINUTE
       then x < history[i + 1].at
       else x < history[i].at + MINUTE
  }

  /** The sighting that speaks for an instant. */
  function Truth(history: seq<Sighting>, x: int): Option<Sighting> {
    if history == [] then None
    else
      var n := |history| - 1;
      var s := history[n];
      if s.at <= x then (if x < s.at + MINUTE then Some(s) else None)
      else if 0 < n && history[n - 1].at <= x && s.at - history[n - 1].at < MAX_DELAY + MINUTE then Some(history[n - 1])
      else Truth(history[..n], x)
  }

  lemma {:induction false} TruthSpeaks(history: seq<Sighting>, x: int)
    requires InOrder(history)
    ensures forall i :: 0 <= i < |history| && SpeaksFor(history, i, x) ==> Truth(history, x) == Some(history[i])
    ensures Truth(history, x) != None ==> exists i :: 0 <= i < |history| && SpeaksFor(history, i, x)
  {
    if history != [] {
      var n := |history| - 1;
      var earlier := history[..n];
      TruthSpeaks(earlier, x);
      assert forall i :: 0 <= i < n - 1 ==> SpeaksFor(history, i, x) == SpeaksFor(earlier, i, x);
      if history[n].at <= x {
        assert SpeaksFor(history, n, x) <==> x < history[n].at + MINUTE;
      } else if 0 < n {
        assert SpeaksFor(history, n - 1, x) || !SpeaksFor(history, n - 1, x);
      }
    }
  }

  function Said(s: Option<Sighting>): Option<(Status, nat)> {
    if s.None? then None else Some((s.value.status, s.value.epoch))
  }

  lemma {:induction false} LookupPast(log: seq<Interval>, x: int)
    requires forall k :: 0 <= k < |log| ==> log[k].endAt <= x
    ensures Lookup(log, x) == None
  {
    if log != [] {
      LookupPast(log[..|log| - 1], x);
    }
  }

  lemma {:induction false} LookupSnoc(log: seq<Interval>, row: Interval, x: int)
    ensures Lookup(log + [row], x) == if Covers(row, x) then Some((row.status, row.epoch)) else Lookup(log, x)
  {
    assert (log + [row])[..|log|] == log;
  }

  /** One more sighting changes what the log says only from the previous one on. */
  lemma {:induction false} LookupStep(log: seq<Interval>, latest: Sighting, s: Sighting, x: int)
    requires Disjoint(log) && CarriesLast(log, latest) && latest.at < s.at
    ensures Lookup(RecordAt(log, |log| - 1, s), x) ==
      if s.at <= x then (if x < s.at + MINUTE then Some((s.status, s.epoch)) else None)
      else if latest.at <= x && s.at - latest.at < MAX_DELAY + MINUTE then Some((latest.status, latest.epoch))
      else Lookup(log, x)
  {
    var m := |log| - 1;
    var last, kept := log[m], Continued(log[m], s);
    var head := log[..m];
    assert log == head + [last] && log[m := kept] == head + [kept];
    LookupSnoc(head, last, x);
    LookupSnoc(head, kept, x);
    if last.startAt <= x {
      LookupPast(head, x);
    }
    if InReach(last, s) && SameState(last, s) {
      assert RecordAt(log, m, s) == head + [kept];
    } else {
      LookupOpened(log, head + [kept], s, x);
    }
  }

  lemma {:induction false} LookupOpened(log: seq<Interval>, before: seq<Interval>, s: Sighting, x: int)
    requires log != [] && before == log[|log| - 1 := Continued(log[|log| - 1], s)]
    requires !(InReach(log[|log| - 1], s) && SameState(log[|log| - 1], s))
    ensures Lookup(RecordAt(log, |log| - 1, s), x) ==
      if s.at <= x < s.at + MINUTE then Some((s.status, s.epoch)) else Lookup(before, x)
  {
    assert RecordAt(log, |log| - 1, s) == before + [Opened(s)];
    LookupSnoc(before, Opened(s), x);
  }

  /** History refinement: at every instant the log gives back exactly the status and
      epoch of the sighting that speaks for it, or nothing if none does. */
  lemma {:induction false} LogDecodes(history: seq<Sighting>, x: int)
    requires InOrder(history)
    ensures Lookup(Log(history), x) == Said(Truth(history, x))
    ensures forall i :: 0 <= i < |history| && SpeaksFor(history, i, x) ==>
      Lookup(Log(history), x) == Some((history[i].status, history[i].epoch))
    ensures (forall i :: 0 <= i < |history| ==> !SpeaksFor(history, i, x)) ==> Lookup(Log(history), x) == None
  {
    LookupIsTruth(history, x);
    TruthSpeaks(history, x);
  }

  lemma {:induction false} LookupIsTruth(history: seq<Sighting>, x: int)
    requires InOrder(history)
    ensures Lookup(Log(history), x) == Said(Truth(history, x))
  {
    if history != [] {
      var n := |history| - 1;
      var earlier, s := history[..n], history[n];
      LookupIsTruth(earlier, x);
      if earlier == [] {
        LookupSnoc([], Opened(s), x);
        assert Log(history) == [] + [Opened(s)];
      } else {
        assert earlier + [s] == history;
        TruthStep(earlier, s, x);
        LogInvariant(earlier);
        LookupStep(Log(earlier), earlier[n - 1], s, x);
        LogSnoc(earlier, s);
      }
    }
  }

  lemma {:induction false} LogSnoc(history: seq<Sighting>, s: Sighting)
    requires history != []
    ensures Log(history + [s]) == RecordAt(Log(history), |Log(history)| - 1, s)
  {
    assert (history + [s])[..|history|] == history;
  }

  lemma {:induction false} TruthStep(history: seq<Sighting>, s: Sighting, x: int)
    requires history != []
    ensures var latest := history[|history| - 1];
      Truth(history + [s], x) ==
        if s.at <= x then (if x < s.at + MINUTE then Some(s) else None)
        else if latest.at <= x && s.at - latest.at < MAX_DELAY + MINUTE then Some(latest)
        else Truth(history, x)
  {
    assert (history + [s])[..|history|] == history;
  }

  /** No instant lies in two rows. */
  lemma {:induction false} CoveredOnce(history: seq<Sighting>, x: int, k: nat, l: nat)
    requires InOrder(history) && k < |Log(history)| && l < |Log(history)|
    requires Covers(Log(history)[k], x) && Covers(Log(history)[l], x)
    ensures k == l
  {
    LogInvariant(history);
  }

  /* Totals. */

  predicate Any(status: Status, epoch: nat) { true }

  predicate IsUp(status: Status, epoch: nat) { status == Up }

  predicate IsDown(status: Status, epoch: nat) { status == Down }

  function DownIn(epoch: nat): (Status, nat) -> bool {
    (status: Status, e: nat) => status == Down && e == epoch
  }

  /** The rows with some status and epoch. */
  function Says(p: (Status, nat) -> bool): Interval -> bool {
    (row: Interval) => p(row.status, row.epoch)
  }

  function Length(row: Interval): int { row.endAt - row.startAt }

  /** The time the rows with some status and epoch cover. */
  function Span(log: seq<Interval>, p: (Status, nat) -> bool): int {
    SumInt(Map(Length, Filter(log, Says(p))))
  }

  /** How long the first of some sightings speaks: to the next one if that comes in less
      than six minutes, and one minute otherwise. */
  function FirstSpeaks(history: seq<Sighting>): int
    requires history != []
  {
    if |history| > 1 && history[1].at - history[0].at < MAX_DELAY + MINUTE then history[1].at - history[0].at
      else MINUTE
  }

  /** The time the sightings with some status and epoch speak for. */
  function Observed(history: seq<Sighting>, p: (Status, nat) -> bool): int {
    if history == [] then 0
    else (if p(history[0].status, history[0].epoch) then FirstSpeaks(history) else 0) + Observed(history[1..], p)
  }

  lemma {:induction false} SpanSnoc(log: seq<Interval>, row: Interval, p: (Status, nat) -> bool)
    ensures Span(log + [row], p) == Span(log, p) + if p(row.status, row.epoch) then Length(row) else 0
  {
    FilterConcat(log, [row], Says(p));
    MapConcat(Length, Filter(log, Says(p)), Filter([row], Says(p)));
    SumIntConcat(Map(Length, Filter(log, Says(p))), Map(Length, Filter([row], Says(p))));
    assert [row][1..] == [];
  }

  /** One more sighting gives the one before it its gap instead of its minute, if the
      gap is under six minutes. */
  lemma {:induction false} ObservedSnoc(history: seq<Sighting>, s: Sighting, p: (Status, nat) -> bool)
    requires history != []
    ensures var latest := history[|history| - 1];
      Observed(history + [s], p) == Observed(history, p) + (if p(s.status, s.epoch) then MINUTE else 0)
        + if p(latest.status, latest.epoch) && s.at - latest.at < MAX_DELAY + MINUTE then s.at - latest.at - MINUTE
          else 0
  {
    var all := history + [s];
    assert all[1..] == history[1..] + [s];
    if |history| > 1 {
      ObservedSnoc(history[1..], s, p);
    } else {
      assert history[1..] == [] && all[1..] == [s] && [s][1..] == [];
    }
  }

  lemma {:induction false} SpanStep(log: seq<Interval>, s: Sighting, p: (Status, nat) -> bool)
    requires log != []
    ensures var last := log[|log| - 1];
      Span(RecordAt(log, |log| - 1, s), p) == Span(log, p) + (if p(s.status, s.epoch) then MINUTE else 0)
        + if p(last.status, last.epoch) && InReach(last, s) then s.at - last.endAt else 0
  {
    var m := |log| - 1;
    var head, kept := log[..m], Continued(log[m], s);
    assert log == head + [log[m]] && log[m := kept] == head + [kept];
    SpanSnoc(head, log[m], p);
    SpanSnoc(head, kept, p);
    if InReach(log[m], s) && SameState(log[m], s) {
      assert RecordAt(log, m, s) == head + [kept];
    } else {
      assert RecordAt(log, m, s) == (head + [kept]) + [Opened(s)];
      SpanSnoc(head + [kept], Opened(s), p);
    }
  }

  /** Exact accounting: for every history the rows with some status and epoch cover
      exactly the time for which the sightings with that status and epoch speak. */
  lemma {:induction false} SpanIsObserved(history: seq<Sighting>, p: (Status, nat) -> bool)
    requires InOrder(history)
    ensures Span(Log(history), p) == Observed(history, p)
  {
    if history != [] {
      var n := |history| - 1;
      var earlier, s := history[..n], history[n];
      SpanIsObserved(earlier, p);
      if earlier == [] {
        OneSpan(s, p);
        assert history == [s];
      } else {
        assert earlier + [s] == history;
        SpanMore(earlier, s, p);
      }
    }
  }

  lemma {:induction false} OneSpan(s: Sighting, p: (Status, nat) -> bool)
    ensures Span(Log([s]), p) == Observed([s], p)
  {
    SpanSnoc([], Opened(s), p);
    assert [s][..0] == [] && [s][1..] == [];
    assert Log([s]) == [] + [Opened(s)];
  }

  lemma {:induction false} SpanMore(earlier: seq<Sighting>, s: Sighting, p: (Status, nat) -> bool)
    requires InOrder(earlier) && earlier != [] && Span(Log(earlier), p) == Observed(earlier, p)
    ensures Span(Log(earlier + [s]), p) == Observed(earlier + [s], p)
  {
    LogInvariant(earlier);
    LogSnoc(earlier, s);
    ObservedSnoc(earlier, s, p);
    SpanStep(Log(earlier), s, p);
  }

  lemma {:induction false} ObservedSome(history: seq<Sighting>, p: (Status, nat) -> bool)
    requires InOrder(history)
    ensures 0 <= Observed(history, p)
    ensures 0 < Observed(history, p) <==> exists i :: 0 <= i < |history| && p(history[i].status, history[i].epoch)
  {
    if history != [] {
      var rest := history[1..];
      ObservedSome(rest, p);
      if i :| 0 <= i < |rest| && p(rest[i].status, rest[i].epoch) {
        assert history[i + 1] == rest[i];
      }
      if i :| 1 <= i < |history| && p(history[i].status, history[i].epoch) {
        assert rest[i - 1] == history[i];
      }
    }
  }

  lemma {:induction false} SpanSome(log: seq<Interval>, p: (Status, nat) -> bool)
    requires forall k :: 0 <= k < |log| ==> log[k].startAt < log[k].endAt
    ensures 0 <= Span(log, p)
    ensures 0 < Span(log, p) <==> Filter(log, Says(p)) != []
  {
    if log != [] {
      SpanSome(log[1..], p);
    }
  }

  ghost predicate NoGaps(history: seq<Sighting>) {
    forall i :: 0 <= i < |history| - 1 ==> history[i + 1].at - history[i].at < MAX_DELAY + MINUTE
  }

  /** If no two sightings are six minutes apart, up time and down time add up to the
      whole time from the first sighting to a minute after the last. */
  lemma {:induction false} TotalTime(history: seq<Sighting>)
    requires InOrder(history) && NoGaps(history) && history != []
    ensures Span(Log(history), IsUp) + Span(Log(history), IsDown)
      == history[|history| - 1].at + MINUTE - history[0].at
  {
    SpanIsObserved(history, IsUp);
    SpanIsObserved(history, IsDown);
    WholeTime(history);
  }

  lemma {:induction false} WholeTime(history: seq<Sighting>)
    requires NoGaps(history) && history != []
    ensures Observed(history, IsUp) + Observed(history, IsDown) == history[|history| - 1].at + MINUTE - history[0].at
  {
    if |history| > 1 {
      var rest := history[1..];
      forall i | 0 <= i < |rest| - 1 ensures rest[i + 1].at - rest[i].at < MAX_DELAY + MINUTE {
        assert history[i + 1 + 1].at - history[i + 1].at < MAX_DELAY + MINUTE;
      }
      assert history[0 + 1].at - history[0].at < MAX_DELAY + MINUTE;
      WholeTime(rest);
    } else {
      assert history[1..] == [];
    }
  }

  /** Disjoint rows inside a stretch of time cover at most that stretch. */
  lemma {:induction false} SpanWithin(log: seq<Interval>, p: (Status, nat) -> bool, from: int, to: int)
    requires Disjoint(log) && from <= to
    requires forall k :: 0 <= k < |log| && p(log[k].status, log[k].epoch) ==>
      from <= log[k].startAt && log[k].endAt <= to
    ensures 0 <= Span(log, p) <= to - from
  {
    if log != [] {
      var m := |log| - 1;
      var head := log[..m];
      assert log == head + [log[m]];
      SpanSnoc(head, log[m], p);
      SpanWithin(head, p, from, if p(log[m].status, log[m].epoch) then log[m].startAt else to);
    }
  }

  /** A row starts with a sighting of its epoch and ends less than six minutes after
      another. */
  ghost predicate RowFrom(history: seq<Sighting>, row: Interval) {
    && (exists i :: 0 <= i < |history| && history[i].epoch == row.epoch && history[i].at == row.startAt)
    && (exists j ::
          0 <= j < |history| && history[j].epoch == row.epoch && row.endAt < history[j].at + MAX_DELAY + MINUTE)
  }

  lemma {:induction false} RowFromExtends(history: seq<Sighting>, s: Sighting, row: Interval)
    requires RowFrom(history, row)
    ensures RowFrom(history + [s], row)
  {
    var all := history + [s];
    var i :| 0 <= i < |history| && history[i].epoch == row.epoch && history[i].at == row.startAt;
    var j :| 0 <= j < |history| && history[j].epoch == row.epoch && row.endAt < history[j].at + MAX_DELAY + MINUTE;
    assert all[i] == history[i] && all[j] == history[j];
  }

  lemma {:induction false} RowsFromHistory(history: seq<Sighting>)
    requires InOrder(history)
    ensures forall k :: 0 <= k < |Log(history)| ==> RowFrom(history, Log(history)[k])
  {
    if history != [] {
      var n := |history| - 1;
      var earlier, s := history[..n], history[n];
      RowsFromHistory(earlier);
      assert earlier + [s] == history;
      assert history[n].epoch == s.epoch && history[n].at == s.at;
      assert RowFrom(history, Opened(s));
      if earlier != [] {
        LogInvariant(earlier);
        var log := Log(earlier);
        var m := |log| - 1;
        forall k | 0 <= k < |log| ensures RowFrom(history, log[k]) {
          RowFromExtends(earlier, s, log[k]);
        }
        ContinuedFrom(history, log[m], s);
      }
    }
  }

  lemma {:induction false} ContinuedFrom(history: seq<Sighting>, row: Interval, s: Sighting)
    requires 1 < |history| && history[|history| - 1] == s && RowFrom(history, row)
    requires row.epoch == history[|history| - 2].epoch && row.endAt == history[|history| - 2].at + MINUTE
    ensures RowFrom(history, Continued(row, s))
  {
    var i :| 0 <= i < |history| && history[i].epoch == row.epoch && history[i].at == row.startAt;
    var n := |history|;
    var kept := Continued(row, s);
    assert history[i].epoch == kept.epoch && history[i].at == kept.startAt;
    assert history[n - 1].at == s.at && history[n - 2].epoch == kept.epoch;
  }

  /** The time a validator is down in an epoch is less than the time between the
      first and the last snapshot of the epoch plus six minutes. */
  lemma {:induction false} DowntimeBound(history: seq<Sighting>, epoch: nat, from: int, to: int)
    requires InOrder(history) && from <= to
    requires forall i :: 0 <= i < |history| && history[i].epoch == epoch ==> from <= history[i].at <= to
    ensures 0 <= Span(Log(history), DownIn(epoch)) < to - from + MAX_DELAY + MINUTE
  {
    if history != [] {
      LogInvariant(history);
      RowsFromHistory(history);
      var log := Log(history);
      forall k | 0 <= k < |log| && DownIn(epoch)(log[k].status, log[k].epoch)
        ensures from <= log[k].startAt && log[k].endAt <= to + MAX_DELAY + MINUTE - 1
      {
        assert RowFrom(history, log[k]);
      }
      SpanWithin(log, DownIn(epoch), from, to + MAX_DELAY + MINUTE - 1);
    }
  }

  /* Runs over whole snapshots. */

  ghost predicate Increasing(snapshots: seq<Snapshot>) {
    forall i, j :: 0 <= i < j < |snapshots| ==> snapshots[i].createdAt < snapshots[j].createdAt
  }

  function Sightings(snapshots: seq<Snapshot>, voteAccount: string): (history: seq<Sighting>) {
    if snapshots == [] then []
    else
      var n := |snapshots| - 1;
      Sightings(snapshots[..n], voteAccount)
        + if voteAccount in snapshots[n].delinquent then [SightingOf(snapshots[n], voteAccount)] else []
  }

  /** The table holds, for every validator, the log of its sightings. */
  ghost predicate Encodes(rows: seq<UptimeRow>, snapshots: seq<Snapshot>) {
    forall v :: LogOf(rows, v) == Log(Sightings(snapshots, v))
  }

  lemma {:induction false} SightingsInOrder(snapshots: seq<Snapshot>, v: string)
    requires Increasing(snapshots)
    ensures InOrder(Sightings(snapshots, v))
    ensures forall s :: s in Sightings(snapshots, v) ==>
      exists i :: 0 <= i < |snapshots| && snapshots[i].createdAt == s.at && snapshots[i].epoch == s.epoch
  {
    if snapshots != [] {
      var n := |snapshots| - 1;
      SightingsInOrder(snapshots[..n], v);
      var h := Sightings(snapshots[..n], v);
      forall i | 0 <= i < |h| ensures h[i].at < snapshots[n].createdAt {
        assert h[i] in h;
      }
      forall s | s in Sightings(snapshots, v)
        ensures exists i :: 0 <= i < |snapshots| && snapshots[i].createdAt == s.at && snapshots[i].epoch == s.epoch
      {
        if s in h {
          var i :| 0 <= i < n && snapshots[..n][i].createdAt == s.at && snapshots[..n][i].epoch == s.epoch;
          assert snapshots[i].createdAt == s.at;
        } else {
          assert snapshots[n].createdAt == s.at;
        }
      }
    }
  }

  /** Refinement: storing a snapshot takes the table of a run to the table of the
      longer run, and to no other. */
  lemma {:induction false} StoredEncodes(
      snapshots: seq<Snapshot>, s: Snapshot, before: seq<UptimeRow>, after: seq<UptimeRow>)
    requires Increasing(snapshots) && Encodes(before, snapshots)
    ensures Stored(before, s, after) <==> Encodes(after, snapshots + [s])
  {
    assert (snapshots + [s])[..|snapshots|] == snapshots;
    forall v ensures
      (if v in s.delinquent then Recorded(LogOf(before, v), SightingOf(s, v), LogOf(after, v))
        else LogOf(after, v) == LogOf(before, v))
      <==> LogOf(after, v) == Log(Sightings(snapshots + [s], v))
    {
      SightingsInOrder(snapshots, v);
      var h := Sightings(snapshots, v);
      assert Sightings(snapshots + [s], v) == if v in s.delinquent then h + [SightingOf(s, v)] else h;
      if v in s.delinquent {
        RecordedIsLog(Sightings(snapshots, v), SightingOf(s, v), LogOf(after, v));
      }
    }
  }

  /** Storing the latest snapshot again changes nobody's log. */
  lemma {:induction false} StoredAgain(snapshots: seq<Snapshot>, before: seq<UptimeRow>, after: seq<UptimeRow>)
    requires Increasing(snapshots) && snapshots != [] && Encodes(before, snapshots)
    requires Stored(before, snapshots[|snapshots| - 1], after)
    ensures forall v :: LogOf(after, v) == LogOf(before, v)
  {
    var s := snapshots[|snapshots| - 1];
    forall v ensures LogOf(after, v) == LogOf(before, v) {
      SightingsInOrder(snapshots, v);
      if v in s.delinquent {
        RecordedAgain(Sightings(snapshots, v), LogOf(after, v));
      }
    }
  }

  /** The tables of a run that starts with an empty one. */
  ghost predicate IsRun(tables: seq<seq<UptimeRow>>, snapshots: seq<Snapshot>) {
    && |tables| == |snapshots| + 1 && tables[0] == []
    && forall i :: 0 <= i < |snapshots| ==> Stored(tables[i], snapshots[i], tables[i + 1])
  }

  lemma {:induction false} RunEncodes(tables: seq<seq<UptimeRow>>, snapshots: seq<Snapshot>)
    requires Increasing(snapshots) && IsRun(tables, snapshots)
    ensures Encodes(tables[|snapshots|], snapshots)
  {
    if snapshots != [] {
      var n := |snapshots| - 1;
      RunEncodes(tables[..n + 1], snapshots[..n]);
      assert snapshots[..n] + [snapshots[n]] == snapshots;
      assert Stored(tables[n], snapshots[n], tables[n + 1]);
      StoredEncodes(snapshots[..n], snapshots[n], tables[n], tables[n + 1]);
    }
  }

  /** A row decides the lookup of an instant that no other row covers. */
  lemma {:induction false} LookupOnly(log: seq<Interval>, x: int, k: nat)
    requires k < |log| && Covers(log[k], x)
    requires forall l :: 0 <= l < |log| && Covers(log[l], x) ==> l == k
    ensures Lookup(log, x) == Some((log[k].status, log[k].epoch))
  {
    if k < |log| - 1 {
      LookupOnly(log[..|log| - 1], x, k);
    }
  }

  lemma {:induction false} LookupSome(log: seq<Interval>, x: int)
    requires Lookup(log, x).Some?
    ensures exists k :: 0 <= k < |log| && Covers(log[k], x)
  {
    if !Covers(log[|log| - 1], x) {
      LookupSome(log[..|log| - 1], x);
      var k :| 0 <= k < |log| - 1 && Covers(log[..|log| - 1][k], x);
      assert Covers(log[k], x);
    }
  }

  ghost predicate IsCovered(log: seq<Interval>, x: int) { exists k :: 0 <= k < |log| && Covers(log[k], x) }

  ghost predicate IsSpoken(history: seq<Sighting>, x: int) {
    exists i :: 0 <= i < |history| && SpeaksFor(history, i, x)
  }

  /** An instant lies in a row exactly when some sighting speaks for it, the row is the
      only one, and it carries the status and the epoch of that sighting. */
  ghost predicate Decodes(log: seq<Interval>, history: seq<Sighting>, x: int) {
    && (IsCovered(log, x) <==> IsSpoken(history, x))
    && (forall k, l :: 0 <= k < |log| && 0 <= l < |log| && Covers(log[k], x) && Covers(log[l], x) ==> k == l)
    && (forall k, i :: 0 <= k < |log| && Covers(log[k], x) && 0 <= i < |history| && SpeaksFor(history, i, x) ==>
          log[k].status == history[i].status && log[k].epoch == history[i].epoch)
  }

  lemma {:induction false} CoveredIfSpoken(history: seq<Sighting>, x: int)
    requires InOrder(history)
    ensures IsCovered(Log(history), x) <==> IsSpoken(history, x)
  {
    LogDecodes(history, x);
    if Lookup(Log(history), x).Some? {
      LookupSome(Log(history), x);
    } else {
      LookupNone(Log(history), x);
      forall k | 0 <= k < |Log(history)| ensures !Covers(Log(history)[k], x) {
      }
    }
  }

  lemma {:induction false} CoverSays(history: seq<Sighting>, x: int, k: nat, i: nat)
    requires InOrder(history) && k < |Log(history)| && i < |history|
    requires Covers(Log(history)[k], x) && SpeaksFor(history, i, x)
    ensures Log(history)[k].status == history[i].status && Log(history)[k].epoch == history[i].epoch
  {
    forall l | 0 <= l < |Log(history)| && Covers(Log(history)[l], x) ensures l == k {
      CoveredOnce(history, x, l, k);
    }
    LookupOnly(Log(history), x, k);
    LogDecodes(history, x);
  }

  lemma {:induction false} HistoryDecodes(history: seq<Sighting>, x: int)
    requires InOrder(history)
    ensures Decodes(Log(history), history, x)
  {
    var log := Log(history);
    CoveredIfSpoken(history, x);
    forall k, l | 0 <= k < |log| && 0 <= l < |log| && Covers(log[k], x) && Covers(log[l], x) ensures k == l {
      CoveredOnce(history, x, k, l);
    }
    forall k, i | 0 <= k < |log| && Covers(log[k], x) && 0 <= i < |history| && SpeaksFor(history, i, x)
      ensures log[k].status == history[i].status && log[k].epoch == history[i].epoch
    {
      CoverSays(history, x, k, i);
    }
  }

  /** History refinement over whole runs: at every instant the rows of every validator
      decode to its sightings. */
  lemma {:induction false} RunDecodes(tables: seq<seq<UptimeRow>>, snapshots: seq<Snapshot>, v: string, x: int)
    requires Increasing(snapshots) && IsRun(tables, snapshots)
    ensures Decodes(LogOf(tables[|snapshots|], v), Sightings(snapshots, v), x)
  {
    RunEncodes(tables, snapshots);
    SightingsInOrder(snapshots, v);
    HistoryDecodes(Sightings(snapshots, v), x);
  }

  /* The table and the snapshots themselves. */

  lemma {:induction false} SightingIndex(snapshots: seq<Snapshot>, v: string, i: nat) returns (j: nat)
    requires i < |snapshots| && v in snapshots[i].delinquent
    ensures j < |Sightings(snapshots, v)|
    ensures var sighting := Sightings(snapshots, v)[j];
      && sighting.at == snapshots[i].createdAt && sighting.epoch == snapshots[i].epoch
      && (sighting.status == Down <==> snapshots[i].delinquent[v])
  {
    var n := |snapshots| - 1;
    if i < n {
      j := SightingIndex(snapshots[..n], v, i);
    } else {
      j := |Sightings(snapshots[..n], v)|;
    }
  }

  lemma {:induction false} SightingOrigin(snapshots: seq<Snapshot>, v: string, j: nat) returns (i: nat)
    requires j < |Sightings(snapshots, v)|
    ensures i < |snapshots| && v in snapshots[i].delinquent && snapshots[i].createdAt == Sightings(snapshots, v)[j].at
  {
    var n := |snapshots| - 1;
    if j < |Sightings(snapshots[..n], v)| {
      i := SightingOrigin(snapshots[..n], v, j);
    } else {
      i := n;
    }
  }

  /** Of the sightings only the last one at or before an instant can speak for it. */
  lemma {:induction false} OnlySpeaker(history: seq<Sighting>, j: nat, l: nat, x: int)
    requires InOrder(history) && j < |history| && l < |history| && SpeaksFor(history, l, x)
    requires history[j].at <= x && (j + 1 < |history| ==> x < history[j + 1].at)
    ensures l == j
  {
  }

  /** Whether a validator is seen again less than six minutes after snapshot i. */
  ghost predicate SeenSoon(snapshots: seq<Snapshot>, v: string, i: nat)
    requires i < |snapshots|
  {
    exists j :: i < j < |snapshots| && v in snapshots[j].delinquent
      && snapshots[j].createdAt - snapshots[i].createdAt < 360_000_000
  }

  lemma {:induction false} SeenSoonMeansNext(snapshots: seq<Snapshot>, v: string, i: nat, j: nat)
    requires Increasing(snapshots) && i < |snapshots| && j < |Sightings(snapshots, v)|
    requires Sightings(snapshots, v)[j].at == snapshots[i].createdAt
    ensures var history := Sightings(snapshots, v);
      SeenSoon(snapshots, v, i) <==> j + 1 < |history| && history[j + 1].at - history[j].at < MAX_DELAY + MINUTE
  {
    var history := Sightings(snapshots, v);
    SightingsInOrder(snapshots, v);
    if SeenSoon(snapshots, v, i) {
      var l :| i < l < |snapshots| && v in snapshots[l].delinquent
        && snapshots[l].createdAt - snapshots[i].createdAt < 360_000_000;
      var m := SightingIndex(snapshots, v, l);
      assert snapshots[i].createdAt < snapshots[l].createdAt;
      assert j + 1 < m ==> history[j + 1].at < history[m].at;
    }
    if j + 1 < |history| && history[j + 1].at - history[j].at < MAX_DELAY + MINUTE {
      var l := SightingOrigin(snapshots, v, j + 1);
      assert history[j].at < history[j + 1].at;
    }
  }

  /** A row of the log of a validator at some instant, with the status and the epoch it
      must have. */
  ghost predicate Answers(log: seq<Interval>, x: int, delinquent: bool, epoch: nat) {
    exists k :: 0 <= k < |log| && log[k].startAt <= x < log[k].endAt
      && log[k].epoch == epoch && (log[k].status == Down <==> delinquent)
      && forall l :: 0 <= l < |log| && log[l].startAt <= x < log[l].endAt ==> l == k
  }

  ghost predicate Silent(log: seq<Interval>, x: int) {
    forall k :: 0 <= k < |log| ==> !(log[k].startAt <= x < log[k].endAt)
  }

  lemma {:induction false} LogAnswers(history: seq<Sighting>, j: nat, x: int)
    requires InOrder(history) && j < |history|
    requires history[j].at <= x && (j + 1 < |history| ==> x < history[j + 1].at)
    ensures if SpeaksFor(history, j, x) then Answers(Log(history), x, history[j].status == Down, history[j].epoch)
      else Silent(Log(history), x)
  {
    var log := Log(history);
    LogDecodes(history, x);
    if SpeaksFor(history, j, x) {
      LookupSome(log, x);
      var k :| 0 <= k < |log| && Covers(log[k], x);
      forall l | 0 <= l < |log| && Covers(log[l], x) ensures l == k {
        CoveredOnce(history, x, l, k);
      }
      LookupOnly(log, x, k);
    } else {
      forall l | 0 <= l < |history| ensures !SpeaksFor(history, l, x) {
        if SpeaksFor(history, l, x) {
          OnlySpeaker(history, j, l, x);
        }
      }
      LookupNone(log, x);
    }
  }

  lemma {:induction false} LookupNone(log: seq<Interval>, x: int)
    requires Lookup(log, x) == None
    ensures Silent(log, x)
  {
    if log != [] {
      var m := |log| - 1;
      LookupNone(log[..m], x);
      forall k | 0 <= k < |log| ensures !Covers(log[k], x) {
        if k < m {
          assert log[..m][k] == log[k];
        }
      }
    }
  }

  /** What the table says about a validator at an instant, on the snapshots themselves:
      when snapshot i is the last that lists it until then, exactly one row covers the
      instant and carries the epoch and the delinquency of that snapshot, if the
      validator is listed again within six minutes of it or the instant is within one
      minute of it; otherwise no row does. */
  lemma {:induction false} RunAnswers(
      tables: seq<seq<UptimeRow>>, snapshots: seq<Snapshot>, v: string, i: nat, x: int)
    requires Increasing(snapshots) && IsRun(tables, snapshots)
    requires i < |snapshots| && v in snapshots[i].delinquent && snapshots[i].createdAt <= x
    requires forall j :: i < j < |snapshots| && v in snapshots[j].delinquent ==> x < snapshots[j].createdAt
    ensures var log, s := LogOf(tables[|snapshots|], v), snapshots[i];
      if SeenSoon(snapshots, v, i) || x < s.createdAt + 60_000_000 then Answers(log, x, s.delinquent[v], s.epoch)
      else Silent(log, x)
  {
    var history := Sightings(snapshots, v);
    var j := SightingIndex(snapshots, v, i);
    RunEncodes(tables, snapshots);
    SightingsInOrder(snapshots, v);
    SeenSoonMeansNext(snapshots, v, i, j);
    NextIsLater(snapshots, v, i, j);
    LogAnswers(history, j, x);
  }

  lemma {:induction false} NextIsLater(snapshots: seq<Snapshot>, v: string, i: nat, j: nat)
    requires Increasing(snapshots) && i < |snapshots| && j + 1 <= |Sightings(snapshots, v)|
    requires Sightings(snapshots, v)[j].at == snapshots[i].createdAt
    ensures var history := Sightings(snapshots, v);
      j + 1 < |history| ==>
        exists l :: i < l < |snapshots| && v in snapshots[l].delinquent && snapshots[l].createdAt == history[j + 1].at
  {
    var history := Sightings(snapshots, v);
    SightingsInOrder(snapshots, v);
    if j + 1 < |history| {
      var l := SightingOrigin(snapshots, v, j + 1);
      assert history[j].at < history[j + 1].at;
    }
  }

  /** At the time of a snapshot every validator it lists has one row, which is down
      exactly if the snapshot calls it delinquent. */
  lemma {:induction false} RunRecordsStatus(tables: seq<seq<UptimeRow>>, snapshots: seq<Snapshot>, v: string, i: nat)
    requires Increasing(snapshots) && IsRun(tables, snapshots)
    requires i < |snapshots| && v in snapshots[i].delinquent
    ensures var s := snapshots[i]; Answers(LogOf(tables[|snapshots|], v), s.createdAt, s.delinquent[v], s.epoch)
  {
    RunAnswers(tables, snapshots, v, i, snapshots[i].createdAt);
  }

  /** Two rows that either meet and differ, or lie at least five minutes apart. */
  ghost predicate Apart(a: Interval, b: Interval) {
    || (a.endAt == b.startAt && (a.status != b.status || a.epoch != b.epoch))
    || a.endAt + 300_000_000 <= b.startAt
  }

  /** Every row is as long as it can be. */
  ghost predicate Compact(log: seq<Interval>) {
    forall k :: 0 <= k < |log| - 1 ==> Apart(log[k], log[k + 1])
  }

  lemma {:induction false} RecordKeepsCompact(log: seq<Interval>, s: Sighting)
    requires log != [] && Compact(log)
    ensures Compact(RecordAt(log, |log| - 1, s))
  {
    var m, after := |log| - 1, RecordAt(log, |log| - 1, s);
    forall k | 0 <= k < |after| - 1 ensures Apart(after[k], after[k + 1]) {
      if k < m {
        assert Apart(log[k], log[k + 1]);
        assert after[k] == log[k] && after[k + 1].startAt == log[k + 1].startAt;
      }
    }
  }

  lemma {:induction false} LogIsCompact(history: seq<Sighting>)
    ensures Compact(Log(history))
  {
    if history != [] {
      LogIsCompact(history[..|history| - 1]);
      if Log(history[..|history| - 1]) != [] {
        RecordKeepsCompact(Log(history[..|history| - 1]), history[|history| - 1]);
      }
    }
  }
}
