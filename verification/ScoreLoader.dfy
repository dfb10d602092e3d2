/** The concurrent score loader: one task per epoch, at most ten of them at a time, each
    sending what it fetched to a collector.  Every interleaving of the steps below is a
    run of the program. */
module ScoreLoader {
  import opened Wrappers

  const WORKERS: nat := 10

  type Scores = map<string, real>

  /** What fetching an epoch gives: nothing if the request, its status or its body is
      bad. */
  type Outcome = nat -> Option<Scores>

  /** The spawning loop: about to clone a sender for an epoch, waiting for a permit with
      the clone in hand, or past the loop with its own sender dropped. */
  datatype Spawner = Cloning(epoch: nat) | Acquiring(epoch: nat) | Done

  /** A task holds a permit and a sender; it sends, drops the permit, drops the sender. */
  datatype Task = Fetching | Fetched | Released

  datatype State = State(
    spawner: Spawner,
    tasks: map<nat, Task>,
    finished: set<nat>,
    free: nat,
    channel: seq<(nat, Scores)>,
    result: map<nat, Scores>,
    collected: bool)

  datatype Job = Job(first: nat, last: nat, outcome: Outcome)

  predicate InRange(job: Job, epoch: nat) { job.first <= epoch <= job.last }

  function Init(job: Job): State {
    State(if job.first <= job.last then Cloning(job.first) else Done, map[], {}, WORKERS, [], map[], false)
  }

  datatype Step = Clone | Spawn | Fetch(epoch: nat) | Release(epoch: nat) | End(epoch: nat) | Receive | Close

  /** The senders still alive: those of the tasks, the clone in hand and the original. */
  predicate SendersGone(s: State) { s.spawner.Done? && s.tasks == map[] }

  predicate Enabled(s: State, step: Step) {
    match step
    case Clone => s.spawner.Cloning?
    case Spawn => s.spawner.Acquiring? && 0 < s.free
    case Fetch(e) => e in s.tasks && s.tasks[e].Fetching?
    case Release(e) => e in s.tasks && s.tasks[e].Fetched?
    case End(e) => e in s.tasks && s.tasks[e].Released?
    case Receive => !s.collected && s.channel != []
    case Close => !s.collected && s.channel == [] && SendersGone(s)
  }

  function Next(job: Job, s: State, step: Step): State
    requires Enabled(s, step)
  {
    match step
    case Clone => s.(spawner := Acquiring(s.spawner.epoch))
    case Spawn =>
      var e := s.spawner.epoch;
      s.(spawner := if e < job.last then Cloning(e + 1) else Done, free := s.free - 1, tasks := s.tasks[e := Fetching])
    case Fetch(e) =>
      s.(tasks := s.tasks[e := Fetched],
         channel := if job.outcome(e).Some? then s.channel + [(e, job.outcome(e).value)] else s.channel)
    case Release(e) => s.(tasks := s.tasks[e := Released], free := s.free + 1)
    case End(e) => s.(tasks := s.tasks - {e}, finished := s.finished + {e})
    case Receive => s.(channel := s.channel[1..], result := s.result[s.channel[0].0 := s.channel[0].1])
    case Close => s.(collected := true)
  }

  ghost predicate IsRun(job: Job, states: seq<State>, steps: seq<Step>) {
    && |states| == |steps| + 1 && states[0] == Init(job)
    && forall i :: 0 <= i < |steps| ==> Enabled(states[i], steps[i]) && states[i + 1] == Next(job, states[i], steps[i])
  }

  /* The invariant. */

  ghost function Holders(s: State): set<nat> {
    set e | e in s.tasks && !s.tasks[e].Released?
  }

  ghost predicate WasFetched(s: State, epoch: nat) {
    epoch in s.finished || (epoch in s.tasks && !s.tasks[epoch].Fetching?)
  }

  ghost predicate WasSpawned(job: Job, s: State, epoch: nat) {
    InRange(job, epoch) && (s.spawner.Done? || epoch < s.spawner.epoch)
  }

  ghost predicate InChannel(s: State, epoch: nat) {
    exists i :: 0 <= i < |s.channel| && s.channel[i].0 == epoch
  }

  ghost function Having(tasks: map<nat, Task>, at: Task): set<nat> {
    set e | e in tasks && tasks[e] == at
  }

  /** Permits are conserved, and each epoch the loop has passed has one task. */
  ghost predicate TasksInv(job: Job, s: State) {
    && (!s.spawner.Done? ==> InRange(job, s.spawner.epoch))
    && s.free + |Holders(s)| == WORKERS
    && s.tasks.Keys !! s.finished
    && forall e :: WasSpawned(job, s, e) <==> e in s.tasks || e in s.finished
  }

  /** Everything fetched is on its way or has arrived, as it was fetched; the collector
      closes only when nobody can send any more. */
  ghost predicate MessagesInv(job: Job, s: State) {
    && (forall i :: 0 <= i < |s.channel| ==>
      WasFetched(s, s.channel[i].0) && job.outcome(s.channel[i].0) == Some(s.channel[i].1))
    && (forall e :: e in s.result ==> WasFetched(s, e) && job.outcome(e) == Some(s.result[e]))
    && (forall e :: WasFetched(s, e) && job.outcome(e).Some? ==> InChannel(s, e) || e in s.result)
    && (s.collected ==> s.channel == [] && SendersGone(s))
  }

  ghost predicate Inv(job: Job, s: State) { TasksInv(job, s) && MessagesInv(job, s) }

  lemma {:induction false} InitInv(job: Job)
    ensures Inv(job, Init(job))
  {
    assert Holders(Init(job)) == {};
  }

  lemma {:induction false} SpawnTasks(job: Job, s: State)
    requires TasksInv(job, s) && Enabled(s, Spawn)
    ensures TasksInv(job, Next(job, s, Spawn))
  {
    assert !WasSpawned(job, s, s.spawner.epoch);
    assert Holders(Next(job, s, Spawn)) == Holders(s) + {s.spawner.epoch};
  }

  lemma {:induction false} OtherTasks(job: Job, s: State, step: Step)
    requires TasksInv(job, s) && Enabled(s, step) && !step.Spawn?
    ensures TasksInv(job, Next(job, s, step))
  {
    var t := Next(job, s, step);
    assert Holders(t) == if step.Release? then Holders(s) - {step.epoch} else Holders(s);
    forall e ensures WasSpawned(job, t, e) == WasSpawned(job, s, e) {}
  }

  lemma {:induction false} NextTasks(job: Job, s: State, step: Step)
    requires TasksInv(job, s) && Enabled(s, step)
    ensures TasksInv(job, Next(job, s, step))
  {
    if step.Spawn? {
      SpawnTasks(job, s);
    } else {
      OtherTasks(job, s, step);
    }
  }

  lemma {:induction false} FetchMessages(job: Job, s: State, e: nat)
    requires Inv(job, s) && Enabled(s, Fetch(e))
    ensures MessagesInv(job, Next(job, s, Fetch(e)))
  {
    var t := Next(job, s, Fetch(e));
    assert !WasFetched(s, e);
    forall d ensures WasFetched(t, d) <==> WasFetched(s, d) || d == e {}
    forall d | InChannel(s, d) ensures InChannel(t, d) {
      var i :| 0 <= i < |s.channel| && s.channel[i].0 == d;
      assert t.channel[i].0 == d;
    }
    if job.outcome(e).Some? {
      assert t.channel[|s.channel|].0 == e;
    }
  }

  lemma {:induction false} ReceiveMessages(job: Job, s: State)
    requires Inv(job, s) && Enabled(s, Receive)
    ensures MessagesInv(job, Next(job, s, Receive))
  {
    var t := Next(job, s, Receive);
    forall d ensures WasFetched(t, d) <==> WasFetched(s, d) {}
    forall d | InChannel(s, d) ensures InChannel(t, d) || d in t.result {
      var i :| 0 <= i < |s.channel| && s.channel[i].0 == d;
      if i > 0 {
        assert t.channel[i - 1].0 == d;
      }
    }
  }

  lemma {:induction false} OtherMessages(job: Job, s: State, step: Step)
    requires Inv(job, s) && Enabled(s, step) && !step.Fetch? && !step.Receive?
    ensures MessagesInv(job, Next(job, s, step))
  {
    var t := Next(job, s, step);
    assert s.collected ==> step.Close?;
    if step.Spawn? {
      assert !WasSpawned(job, s, s.spawner.epoch);
    }
    forall d ensures WasFetched(t, d) <==> WasFetched(s, d) {}
    forall d ensures InChannel(t, d) <==> InChannel(s, d) {}
  }

  lemma {:induction false} NextInv(job: Job, s: State, step: Step)
    requires Inv(job, s) && Enabled(s, step)
    ensures Inv(job, Next(job, s, step))
  {
    NextTasks(job, s, step);
    match step
    case Fetch(e) => FetchMessages(job, s, e);
    case Receive => ReceiveMessages(job, s);
    case _ => OtherMessages(job, s, step);
  }

  lemma {:induction false} RunInv(job: Job, states: seq<State>, steps: seq<Step>, i: nat)
    requires IsRun(job, states, steps) && i < |states|
    ensures Inv(job, states[i])
  {
    if i == 0 {
      InitInv(job);
    } else {
      RunInv(job, states, steps, i - 1);
      NextInv(job, states[i - 1], steps[i - 1]);
    }
  }

  /* What every run guarantees. */

  /** Free and held permits make ten in every state, so at most ten fetches are in
      flight. */
  lemma {:induction false} PermitsConserved(job: Job, states: seq<State>, steps: seq<Step>, i: nat)
    requires IsRun(job, states, steps) && i < |states|
    ensures states[i].free + |Holders(states[i])| == 10
    ensures |Having(states[i].tasks, Fetching)| <= 10
  {
    RunInv(job, states, steps, i);
    var fetching := Having(states[i].tasks, Fetching);
    assert Holders(states[i]) == fetching + (Holders(states[i]) - fetching);
  }

  /** A send always finds the collector open. */
  lemma {:induction false} SendNeverFails(job: Job, states: seq<State>, steps: seq<Step>, i: nat, e: nat)
    requires IsRun(job, states, steps) && i < |states| && Enabled(states[i], Fetch(e))
    ensures !states[i].collected
  {
    RunInv(job, states, steps, i);
  }

  /** The epochs whose fetch succeeded, with their scores. */
  function Expected(job: Job): map<nat, Scores> {
    map e | job.first <= e <= job.last && job.outcome(e).Some? :: job.outcome(e).value
  }

  /** When the collector has closed, its map is exactly that, whatever the order in which
      the fetches completed. */
  lemma {:induction false} CollectedIsComplete(job: Job, states: seq<State>, steps: seq<Step>, i: nat)
    requires IsRun(job, states, steps) && i < |states| && states[i].collected
    ensures states[i].result == Expected(job)
  {
    RunInv(job, states, steps, i);
    var s := states[i];
    forall e: nat ensures e in s.result <==> e in Expected(job) {
      assert WasSpawned(job, s, e) <==> e in s.finished;
      if e in Expected(job) {
        assert WasFetched(s, e);
      }
    }
  }

  /** No deadlock: until the collector has closed some step is possible. */
  lemma {:induction false} Progress(job: Job, states: seq<State>, steps: seq<Step>, i: nat) returns (step: Step)
    requires IsRun(job, states, steps) && i < |states| && !states[i].collected
    ensures Enabled(states[i], step)
  {
    RunInv(job, states, steps, i);
    var s := states[i];
    if s.channel != [] {
      step := Receive;
    } else if s.tasks != map[] {
      var e :| e in s.tasks;
      step := match s.tasks[e] case Fetching => Fetch(e) case Fetched => Release(e) case Released => End(e);
    } else if s.spawner.Cloning? {
      step := Clone;
    } else if s.spawner.Acquiring? {
      assert Holders(s) == {};
      step := Spawn;
    } else {
      step := Close;
    }
  }

  /** How much is left to do. */
  ghost function Left(job: Job, s: State): nat {
    var unspawned := if s.spawner.Done? || job.last < s.spawner.epoch then 0
      else 6 * (job.last - s.spawner.epoch + 1) - if s.spawner.Acquiring? then 1 else 0;
    unspawned + TaskWork(s.tasks) + |s.channel| + if s.collected then 0 else 1
  }

  ghost function TaskWork(tasks: map<nat, Task>): nat {
    4 * |Having(tasks, Fetching)| + 2 * |Having(tasks, Fetched)| + |Having(tasks, Released)|
  }

  lemma {:induction false} HavingSet(tasks: map<nat, Task>, e: nat, to: Task, at: Task)
    ensures Having(tasks[e := to], at) == if to == at then Having(tasks, at) + {e} else Having(tasks, at) - {e}
    ensures Having(tasks - {e}, at) == Having(tasks, at) - {e}
  {
  }

  lemma {:induction false} TaskWorkStep(tasks: map<nat, Task>, e: nat)
    ensures e !in tasks ==> TaskWork(tasks[e := Fetching]) == TaskWork(tasks) + 4
    ensures e in tasks && tasks[e].Fetching? ==> TaskWork(tasks[e := Fetched]) == TaskWork(tasks) - 2
    ensures e in tasks && tasks[e].Fetched? ==> TaskWork(tasks[e := Released]) == TaskWork(tasks) - 1
    ensures e in tasks && tasks[e].Released? ==> TaskWork(tasks - {e}) == TaskWork(tasks) - 1
  {
    if e !in tasks {
      HavingAll(tasks, e, Fetching);
    } else if tasks[e].Fetching? {
      HavingAll(tasks, e, Fetched);
    } else {
      HavingAll(tasks, e, Released);
    }
  }

  lemma {:induction false} HavingAll(tasks: map<nat, Task>, e: nat, to: Task)
    ensures forall at {:trigger Having(tasks, at)} ::
      && Having(tasks[e := to], at) == (if to == at then Having(tasks, at) + {e} else Having(tasks, at) - {e})
      && Having(tasks - {e}, at) == Having(tasks, at) - {e}
  {
    HavingSet(tasks, e, to, Fetching);
    HavingSet(tasks, e, to, Fetched);
    HavingSet(tasks, e, to, Released);
  }

  /** Every step leaves less to do. */
  lemma {:induction false} EveryStepCounts(job: Job, states: seq<State>, steps: seq<Step>, i: nat)
    requires IsRun(job, states, steps) && i < |steps|
    ensures Left(job, states[i + 1]) < Left(job, states[i])
  {
    RunInv(job, states, steps, i);
    var s := states[i];
    match steps[i]
    case Spawn =>
      assert !WasSpawned(job, s, s.spawner.epoch);
      TaskWorkStep(s.tasks, s.spawner.epoch);
    case Fetch(e) => TaskWorkStep(s.tasks, e);
    case Release(e) => TaskWorkStep(s.tasks, e);
    case End(e) => TaskWorkStep(s.tasks, e);
    case _ =>
  }

  /** Every run ends: no run has more steps than there is work in the initial state. */
  lemma {:induction false} RunsEnd(job: Job, states: seq<State>, steps: seq<Step>)
    requires IsRun(job, states, steps)
    ensures |steps| + Left(job, states[|steps|]) <= Left(job, Init(job))
  {
    if steps != [] {
      var n := |steps| - 1;
      RunsEnd(job, states[..n + 1], steps[..n]);
      EveryStepCounts(job, states, steps, n);
    }
  }

  /** A run that no step can extend has collected exactly the epochs whose fetch
      succeeded, whatever the interleaving. */
  lemma {:induction false} FinishedRun(job: Job, states: seq<State>, steps: seq<Step>)
    requires IsRun(job, states, steps)
    requires forall step :: !Enabled(states[|steps|], step)
    ensures states[|steps|].collected && states[|steps|].result == Expected(job)
  {
    if !states[|steps|].collected {
      var step := Progress(job, states, steps, |steps|);
      assert false;
    }
    CollectedIsComplete(job, states, steps, |steps|);
  }
}
