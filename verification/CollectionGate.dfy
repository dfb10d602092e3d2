/** The gate of the Jito collection: before each collection a check compares the chain
    with the newest stored row.  What it guarantees shows only over runs of check,
    collect and store. */
module CollectionGate {
  import opened ChunkedUpsert
  import opened JitoStore
  import opened Wrappers

  /** A moment on the chain. */
  datatype Clock = Clock(epoch: nat, slot: nat)

  predicate NotAfter(a: Clock, b: Clock) {
    a.epoch < b.epoch || (a.epoch == b.epoch && a.slot <= b.slot)
  }

  /** Whether to collect, given the newest stored epoch and slot.  The stored epoch is
      one behind the epoch in which the data was collected. */
  function CheckJito(stored: Option<(int, int)>, now: Clock, interval: int): bool {
    if stored.None? then true
    else
      var (sqlEpoch, sqlSlot) := stored.value;
      now.epoch - 1 > sqlEpoch || now.slot - sqlSlot >= interval
  }

  predicate RowNotAfter<D>(a: JitoRow<D>, b: JitoRow<D>) {
    a.epoch < b.epoch || (a.epoch == b.epoch && a.epochSlot <= b.epochSlot)
  }

  ghost predicate IsNewest<D>(content: Content<D>, k: Key) {
    k in content && forall l :: l in content ==> RowNotAfter(content[l], content[k])
  }

  lemma {:induction false} HasNewest<D>(content: Content<D>)
    requires content != map[]
    ensures exists k :: IsNewest(content, k)
    decreases content.Keys
  {
    var k :| k in content;
    var rest := content - {k};
    var best := k;
    if rest != map[] {
      HasNewest(rest);
      var m :| IsNewest(rest, m);
      best := if RowNotAfter(content[m], content[k]) then k else m;
    }
    forall l | l in content ensures RowNotAfter(content[l], content[best]) {
      assert l == k || l in rest;
    }
    assert IsNewest(content, best);
  }

  ghost function NewestKey<D>(content: Content<D>): (k: Key)
    requires content != map[]
    ensures IsNewest(content, k)
  {
    HasNewest(content);
    var k :| IsNewest(content, k);
    k
  }

  /** The largest epoch of the table, and the largest slot within it. */
  ghost function Newest<D>(content: Content<D>): Option<(int, int)> {
    if content == map[] then None
    else
      var row := content[NewestKey(content)];
      Some((row.epoch, row.epochSlot))
  }

  /** One round of the script: a check, and if it accepts, a collection and its store. */
  datatype Attempt<D> = Attempt(check: Clock, collect: Clock, createdAt: int, validators: map<string, JitoEntry<D>>)

  function SnapshotOf<D>(a: Attempt<D>): JitoSnapshot<D>
    requires 0 < a.collect.epoch
  {
    JitoSnapshot(a.collect.epoch - 1, a.collect.slot, a.createdAt, a.validators)
  }

  /** The collected accounts are of the epoch before, and there are some; time does not
      go back. */
  ghost predicate ValidAttempt<D>(a: Attempt<D>) {
    0 < a.check.epoch && NotAfter(a.check, a.collect) && a.validators != map[] && Collected(SnapshotOf(a))
  }

  ghost predicate ValidRun<D>(attempts: seq<Attempt<D>>) {
    && (forall i :: 0 <= i < |attempts| ==> ValidAttempt(attempts[i]))
    && (forall i, j :: 0 <= i < j < |attempts| ==> NotAfter(attempts[i].collect, attempts[j].check))
  }

  ghost function Step<D>(content: Content<D>, a: Attempt<D>, interval: int): Content<D>
    requires ValidAttempt(a)
  {
    if CheckJito(Newest(content), a.check, interval)
    then StoredMap(SchemaOf(SnapshotOf(a)), a.validators, content)
    else content
  }

  /** The table after a run that starts with none, and the moments of the stores. */
  ghost function Run<D>(attempts: seq<Attempt<D>>, interval: int): (r: (Content<D>, seq<Clock>))
    requires ValidRun(attempts)
  {
    if attempts == [] then (map[], [])
    else
      var n := |attempts| - 1;
      var (content, stores) := Run(attempts[..n], interval);
      if CheckJito(Newest(content), attempts[n].check, interval)
      then (Step(content, attempts[n], interval), stores + [attempts[n].collect])
      else (content, stores)
  }

  /** The newest row of the table tells when the last store was. */
  ghost predicate Remembers<D>(content: Content<D>, stores: seq<Clock>) {
    if stores == [] then content == map[]
    else
      var last := stores[|stores| - 1];
      && 0 < last.epoch
      && (exists k :: k in content && content[k].epoch == last.epoch - 1 && content[k].epochSlot == last.slot)
      && forall k :: k in content ==>
        content[k].epoch < last.epoch - 1 || (content[k].epoch == last.epoch - 1 && content[k].epochSlot <= last.slot)
  }

  lemma {:induction false} NewestIsLastStore<D>(content: Content<D>, stores: seq<Clock>)
    requires Remembers(content, stores)
    ensures Newest(content) == if stores == [] then None
      else Some((stores[|stores| - 1].epoch - 1, stores[|stores| - 1].slot))
  {
    if stores != [] {
      var last := stores[|stores| - 1];
      var k :| k in content && content[k].epoch == last.epoch - 1 && content[k].epochSlot == last.slot;
      assert RowNotAfter(content[k], content[NewestKey(content)]);
    }
  }

  ghost predicate RowsKeyed<D>(content: Content<D>) {
    forall k :: k in content ==> content[k].voteAccount == k.0 && content[k].epoch == k.1
  }

  lemma {:induction false} SnapshotRemembered<D>(
      content: Content<D>, after: Content<D>, stores: seq<Clock>, a: Attempt<D>)
    requires ValidAttempt(a) && HoldsSnapshot(SnapshotOf(a), content, after)
    requires Remembers(content, stores) && RowsKeyed(content)
    requires stores != [] ==> NotAfter(stores[|stores| - 1], a.collect)
    ensures Remembers(after, stores + [a.collect]) && RowsKeyed(after)
  {
    var s := SnapshotOf(a);
    var v :| v in a.validators;
    var k := (v, s.epoch);
    assert k in SnapshotKeys(a.validators, s.epoch) && k in after;
    assert after[k].epochSlot == a.collect.slot && after[k].epoch == s.epoch;
  }

  ghost predicate NoneAfter(stores: seq<Clock>, now: Clock) {
    forall i :: 0 <= i < |stores| ==> NotAfter(stores[i], now)
  }

  ghost predicate RunState<D>(content: Content<D>, stores: seq<Clock>, now: Clock) {
    Remembers(content, stores) && RowsKeyed(content) && NoneAfter(stores, now)
  }

  lemma {:induction false} StepKeepsState<D>(content: Content<D>, stores: seq<Clock>, a: Attempt<D>, interval: int)
    requires ValidAttempt(a) && RunState(content, stores, a.check)
    ensures var accepted := CheckJito(Newest(content), a.check, interval);
      RunState(Step(content, a, interval), if accepted then stores + [a.collect] else stores, a.collect)
  {
    if CheckJito(Newest(content), a.check, interval) {
      StoredContent(SnapshotOf(a), content);
      SnapshotRemembered(content, Step(content, a, interval), stores, a);
    }
  }

  /** Invariant over runs: the table always remembers the last store. */
  lemma {:induction false} RunInvariant<D>(attempts: seq<Attempt<D>>, interval: int, now: Clock)
    requires ValidRun(attempts)
    requires attempts != [] ==> NotAfter(attempts[|attempts| - 1].collect, now)
    ensures RunState(Run(attempts, interval).0, Run(attempts, interval).1, now)
  {
    if attempts != [] {
      var n := |attempts| - 1;
      RunInvariant(attempts[..n], interval, attempts[n].check);
      StepKeepsState(Run(attempts[..n], interval).0, Run(attempts[..n], interval).1, attempts[n], interval);
    }
  }

  /** The check after a run accepts exactly when nothing was stored yet, the last store
      was in an earlier epoch, or at least the interval has passed since it; so the first
      check of an epoch accepts unless a collection already ended in it. */
  lemma {:induction false} CheckAfterRun<D>(attempts: seq<Attempt<D>>, interval: int, now: Clock)
    requires ValidRun(attempts)
    requires attempts != [] ==> NotAfter(attempts[|attempts| - 1].collect, now)
    ensures var (content, stores) := Run(attempts, interval);
      CheckJito(Newest(content), now, interval) <==>
        stores == [] || stores[|stores| - 1].epoch < now.epoch || now.slot - stores[|stores| - 1].slot >= interval
  {
    RunInvariant(attempts, interval, now);
    NewestIsLastStore(Run(attempts, interval).0, Run(attempts, interval).1);
  }

  /** Stores are in the order of time, and two in a row in one epoch are at least the
      interval apart. */
  ghost predicate Spaced(stores: seq<Clock>, interval: int) {
    forall i :: 0 <= i < |stores| - 1 ==>
      NotAfter(stores[i], stores[i + 1])
      && (stores[i].epoch == stores[i + 1].epoch ==> stores[i + 1].slot - stores[i].slot >= interval)
  }

  lemma {:induction false} StoresSpaced<D>(attempts: seq<Attempt<D>>, interval: int)
    requires ValidRun(attempts)
    ensures Spaced(Run(attempts, interval).1, interval)
  {
    if attempts != [] {
      var n := |attempts| - 1;
      var a, stores := attempts[n], Run(attempts[..n], interval).1;
      StoresSpaced(attempts[..n], interval);
      RunInvariant(attempts[..n], interval, a.check);
      CheckAfterRun(attempts[..n], interval, a.check);
      if stores != [] {
        assert NotAfter(stores[|stores| - 1], a.check);
      }
      if Run(attempts, interval).1 != stores {
        SpacedMore(stores, a.collect, interval);
      }
    }
  }

  lemma {:induction false} SpacedMore(stores: seq<Clock>, next: Clock, interval: int)
    requires Spaced(stores, interval)
    requires stores != [] ==>
      var last := stores[|stores| - 1];
      NotAfter(last, next) && (last.epoch == next.epoch ==> next.slot - last.slot >= interval)
    ensures Spaced(stores + [next], interval)
  {
  }

  /** Any two stores of one epoch are at least the interval apart. */
  lemma {:induction false} AnyTwoSpaced(stores: seq<Clock>, interval: int, i: nat, j: nat)
    requires Spaced(stores, interval) && 0 <= interval && i < j < |stores|
    ensures NotAfter(stores[i], stores[j])
    ensures stores[i].epoch == stores[j].epoch ==> stores[j].slot - stores[i].slot >= interval
  {
    assert NotAfter(stores[j - 1], stores[j - 1 + 1]);
    if i < j - 1 {
      AnyTwoSpaced(stores, interval, i, j - 1);
    }
  }

  function CountIn(stores: seq<Clock>, epoch: nat): nat {
    if stores == [] then 0
    else CountIn(stores[..|stores| - 1], epoch) + if stores[|stores| - 1].epoch == epoch then 1 else 0
  }

  /** Each store of an epoch is past as many intervals as there were stores before it. */
  lemma {:induction false} SpacedCount(stores: seq<Clock>, epoch: nat, interval: int)
    requires Spaced(stores, interval) && 0 < interval && stores != []
    ensures var last := stores[|stores| - 1];
      && (last.epoch < epoch ==> CountIn(stores, epoch) == 0)
      && (last.epoch == epoch ==> 0 < CountIn(stores, epoch) && (CountIn(stores, epoch) - 1) * interval <= last.slot)
  {
    var n := |stores| - 1;
    if n > 0 {
      SpacedCount(stores[..n], epoch, interval);
      assert NotAfter(stores[n - 1], stores[n - 1 + 1]);
      var c := CountIn(stores[..n], epoch);
      assert c * interval == (c - 1) * interval + interval;
    }
  }

  /** An epoch sees at most one store more than intervals fit into it. */
  lemma {:induction false} StoresPerEpoch(stores: seq<Clock>, epoch: nat, interval: int, slotsInEpoch: nat)
    requires Spaced(stores, interval) && 0 < interval && 0 < slotsInEpoch
    requires forall i :: 0 <= i < |stores| ==> stores[i].slot < slotsInEpoch
    ensures CountIn(stores, epoch) <= 1 + (slotsInEpoch - 1) / interval
  {
    if stores != [] {
      var n := |stores| - 1;
      if stores[n].epoch == epoch {
        SpacedCount(stores, epoch, interval);
        DivideBound(CountIn(stores, epoch) - 1, interval, slotsInEpoch - 1);
      } else {
        StoresPerEpoch(stores[..n], epoch, interval, slotsInEpoch);
      }
    }
  }

  lemma {:induction false} CancelFactor(a: int, b: int, d: int)
    requires 0 < d && a * d < b * d
    ensures a < b
  {
  }

  lemma {:induction false} DivideBound(k: int, d: int, x: int)
    requires 0 < d && k * d <= x
    ensures k <= x / d
  {
    var q := x / d;
    assert x < (q + 1) * d;
    CancelFactor(k, q + 1, d);
  }

  /** The bound for runs. */
  lemma {:induction false} RunStoresPerEpoch<D>(attempts: seq<Attempt<D>>, interval: int, epoch: nat, slotsInEpoch: nat)
    requires ValidRun(attempts) && 0 < interval && 0 < slotsInEpoch
    requires forall i :: 0 <= i < |attempts| ==> attempts[i].collect.slot < slotsInEpoch
    ensures CountIn(Run(attempts, interval).1, epoch) <= 1 + (slotsInEpoch - 1) / interval
  {
    StoresSpaced(attempts, interval);
    StoresAreCollections(attempts, interval);
    var stores := Run(attempts, interval).1;
    forall i | 0 <= i < |stores| ensures stores[i].slot < slotsInEpoch {
      assert stores[i] in stores;
    }
    StoresPerEpoch(stores, epoch, interval, slotsInEpoch);
  }

  lemma {:induction false} StoresAreCollections<D>(attempts: seq<Attempt<D>>, interval: int)
    requires ValidRun(attempts)
    ensures forall c :: c in Run(attempts, interval).1 ==> exists i :: 0 <= i < |attempts| && attempts[i].collect == c
  {
    if attempts != [] {
      var n := |attempts| - 1;
      StoresAreCollections(attempts[..n], interval);
      forall c | c in Run(attempts, interval).1 ensures exists i :: 0 <= i < |attempts| && attempts[i].collect == c {
        if c in Run(attempts[..n], interval).1 {
          var i :| 0 <= i < n && attempts[..n][i].collect == c;
          assert attempts[i].collect == c;
        } else {
          assert attempts[n].collect == c;
        }
      }
    }
  }
}
