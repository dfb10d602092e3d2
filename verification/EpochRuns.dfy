/** Runs in which snapshots are stored and epochs are closed in any order: every record of
    an epoch ends at one of its snapshots, which bounds the down time of the next. */
module EpochRuns {
  import opened CloseEpoch
  import opened Wrappers
  import ChangeLog
  import UptimeHistory
  import Up = UptimeLog

  /** A snapshot with the transaction counter at its time, or an attempt to close. */
  datatype Event = Observing(snapshot: Up.Snapshot, transactionCount: int) | Closing(epoch: nat)

  datatype State = State(snapshots: seq<Up.Snapshot>, info: seq<ClusterInfo>, epochs: map<nat, EpochRow>)

  function Next(s: State, event: Event): State {
    match event
    case Observing(snapshot, count) =>
      State(s.snapshots + [snapshot], s.info + [ClusterInfo(snapshot.epoch, snapshot.createdAt, count)], s.epochs)
    case Closing(epoch) =>
      if Recording(s.info, s.epochs, epoch).Failure? then s
      else s.(epochs := s.epochs[epoch := EpochRecord(s.info, s.epochs, epoch).value])
  }

  function After(events: seq<Event>): State {
    if events == [] then State([], [], map[]) else Next(After(events[..|events| - 1]), events[|events| - 1])
  }

  /** An attempt to close leaves the records that closing the epoch leaves. */
  lemma {:induction false} ClosingIsClose(
      s: State, epoch: nat, uptimes: seq<Up.UptimeRow>, commissions: seq<ChangeLog.LogRow<int>>,
      finalized: map<string, Option<int>>, validators: Rows, done: Result<(), SqlError>, after: Tables)
    requires Closed(s.info, uptimes, commissions, finalized, epoch, Tables(s.epochs, validators), done, after)
    ensures Next(s, Closing(epoch)) == s.(epochs := after.epochs)
  {
  }

  /** An instant at which a snapshot of the epoch was taken. */
  ghost predicate IsSnapshotTime(snapshots: seq<Up.Snapshot>, epoch: nat, at: int) {
    exists j :: 0 <= j < |snapshots| && snapshots[j].epoch == epoch && snapshots[j].createdAt == at
  }

  ghost predicate Inv(s: State) {
    && SameSnapshots(s.info, s.snapshots)
    && forall e :: e in s.epochs ==> IsSnapshotTime(s.snapshots, e, s.epochs[e].endAt)
  }

  lemma {:induction false} ObservingKeeps(s: State, event: Event)
    requires Inv(s) && event.Observing?
    ensures Inv(Next(s, event))
  {
    var t := Next(s, event);
    forall e | e in t.epochs ensures IsSnapshotTime(t.snapshots, e, t.epochs[e].endAt) {
      var j :| 0 <= j < |s.snapshots| && s.snapshots[j].epoch == e && s.snapshots[j].createdAt == s.epochs[e].endAt;
      assert t.snapshots[j] == s.snapshots[j];
    }
  }

  lemma {:induction false} ClosingKeeps(s: State, epoch: nat)
    requires Inv(s)
    ensures Inv(Next(s, Closing(epoch)))
  {
    if Recording(s.info, s.epochs, epoch).Success? {
      var c := RecordEnd(s.info, s.epochs, epoch);
      var k :| 0 <= k < |s.info| && s.info[k] == c;
      assert s.snapshots[k].epoch == epoch && s.snapshots[k].createdAt == c.createdAt;
    }
  }

  /** Invariant over all runs: every record ends at a snapshot of its epoch. */
  lemma {:induction false} RunInv(events: seq<Event>)
    ensures Inv(After(events))
  {
    if events != [] {
      var n := |events| - 1;
      RunInv(events[..n]);
      if events[n].Observing? {
        ObservingKeeps(After(events[..n]), events[n]);
      } else {
        ClosingKeeps(After(events[..n]), events[n].epoch);
      }
    }
  }

  /** The record with which any run goes on to close an epoch spans all snapshots of the
      epoch, and no validator is down for its whole duration and six minutes more. */
  lemma {:induction false} RunDowntime(events: seq<Event>, uptimes: seq<Up.UptimeRow>, epoch: nat, v: string)
    requires var s := After(events);
      && UptimeHistory.Increasing(s.snapshots) && EpochsAdvance(s.snapshots)
      && UptimeHistory.Encodes(uptimes, s.snapshots) && EpochRecord(s.info, s.epochs, epoch).Some?
    ensures var s := After(events);
      var row, downtime := EpochRecord(s.info, s.epochs, epoch).value, Downtime(uptimes, v, epoch);
      && row.startAt <= row.endAt
      && (forall i :: 0 <= i < |s.snapshots| && s.snapshots[i].epoch == epoch ==>
            row.startAt <= s.snapshots[i].createdAt <= row.endAt)
      && (downtime.Some? ==> 0 <= downtime.value < row.endAt - row.startAt + 6 * Up.MINUTE)
  {
    var s := After(events);
    RunInv(events);
    if epoch > 0 && epoch - 1 in s.epochs {
      assert IsSnapshotTime(s.snapshots, epoch - 1, s.epochs[epoch - 1].endAt);
    }
    ClosedEpochDowntime(s.snapshots, s.info, s.epochs, uptimes, epoch, v);
    forall i | 0 <= i < |s.snapshots| && s.snapshots[i].epoch == epoch
      ensures var row := EpochRecord(s.info, s.epochs, epoch).value;
        row.startAt <= s.snapshots[i].createdAt <= row.endAt
    {
      RecordCovers(s.snapshots, s.info, s.epochs, epoch, i);
    }
  }
}
