/** Storing Jito snapshots, for the MEV and for the priority fee table alike: only the
    columns of the account data differ. */
module JitoStore {
  import opened ChunkedUpsert
  import opened Wrappers

  const DEFAULT_CHUNK_SIZE: nat := 500

  datatype MevData = MevData(
    mevCommission: int, totalEpochRewards: Option<int>, claimedEpochRewards: Option<int>,
    totalEpochClaimants: Option<int>, epochActiveClaimants: Option<int>)

  datatype PriorityFeeData = PriorityFeeData(
    validatorCommission: int, totalLamportsTransferred: int, totalEpochRewards: Option<int>,
    claimedEpochRewards: Option<int>,
    totalEpochClaimants: Option<int>, epochActiveClaimants: Option<int>)

  /** An account of the snapshot; it carries its own vote account and epoch beside the
      key of the file and the epoch of the snapshot. */
  datatype JitoEntry<D> = JitoEntry(voteAccount: string, data: D, epoch: nat)

  datatype JitoRow<D> = JitoRow(voteAccount: string, data: D, epochSlot: nat, epoch: nat, createdAt: int)

  datatype JitoSnapshot<D> = JitoSnapshot(epoch: nat, loadedAtSlotIndex: nat, createdAt: int,
    validators: map<string, JitoEntry<D>>)

  function RowAccount<D>(r: JitoRow<D>): string { r.voteAccount }

  function RowEpoch<D>(r: JitoRow<D>): nat { r.epoch }

  function EntryAccount<D>(e: JitoEntry<D>): string { e.voteAccount }

  function EntryEpoch<D>(e: JitoEntry<D>): nat { e.epoch }

  /** The update sets the data and the slot, and leaves the time of creation. */
  function Apply<D>(slot: nat): (JitoRow<D>, JitoEntry<D>) -> JitoRow<D> {
    (r: JitoRow<D>, e: JitoEntry<D>) => r.(data := e.data, epochSlot := slot)
  }

  function Make<D>(s: JitoSnapshot<D>): JitoEntry<D> -> JitoRow<D> {
    (e: JitoEntry<D>) => JitoRow(e.voteAccount, e.data, s.loadedAtSlotIndex, s.epoch, s.createdAt)
  }

  function SchemaOf<D>(s: JitoSnapshot<D>): Schema<JitoRow<D>, JitoEntry<D>> {
    Schema(r => RowAccount(r), r => RowEpoch(r), e => EntryAccount(e), e => EntryEpoch(e), s.epoch,
      Apply(s.loadedAtSlotIndex), Make(s))
  }

  lemma {:induction false} SchemaValid<D(!new)>(s: JitoSnapshot<D>)
    ensures ValidSchema(SchemaOf(s))
  {
  }

  type Content<D> = map<Key, JitoRow<D>>

  /** What the collector writes: every account under its vote account and with the epoch
      of the snapshot. */
  ghost predicate Collected<D>(s: JitoSnapshot<D>) { Regular(SchemaOf(s), s.validators) }

  method StoreJito<D(!new)>(table: Table<JitoRow<D>, JitoEntry<D>>, s: JitoSnapshot<D>, ghost content: Content<D>)
    requires Holds(SchemaOf(s), table.rows, content)
    modifies table
    ensures UniqueKeys(SchemaOf(s), table.rows) <==> CleanInserts(SchemaOf(s), s.validators, content)
    ensures Clean(SchemaOf(s), s.validators, content) ==>
      Holds(SchemaOf(s), table.rows, StoredMap(SchemaOf(s), s.validators, content))
    ensures Collected(s) ==> Holds(SchemaOf(s), table.rows, Upserted(SchemaOf(s), s.validators, content))
  {
    SchemaValid(s);
    var updated, inserted := table.Store(SchemaOf(s), s.validators, DEFAULT_CHUNK_SIZE);
    StoredUnique(SchemaOf(s), s.validators, old(table.rows), table.rows, inserted, content);
    if Collected(s) {
      StoreIsUpsert(SchemaOf(s), s.validators, content);
    }
    if Clean(SchemaOf(s), s.validators, content) {
      StoreRefinesMap(SchemaOf(s), s.validators, old(table.rows), table.rows, inserted, content);
    }
  }

  /** Every validator of the snapshot has its data and the slot in its row of the epoch;
      a row that existed keeps its time of creation, and no other row differs. */
  ghost predicate HoldsSnapshot<D>(s: JitoSnapshot<D>, before: Content<D>, after: Content<D>) {
    && after.Keys == before.Keys + SnapshotKeys(s.validators, s.epoch)
    && (forall a :: a in s.validators ==>
          var k := (a, s.epoch);
          && after[k].voteAccount == a && after[k].epoch == s.epoch
          && after[k].data == s.validators[a].data && after[k].epochSlot == s.loadedAtSlotIndex
          && after[k].createdAt == (if k in before then before[k].createdAt else s.createdAt))
    && (forall k :: k in before && k !in SnapshotKeys(s.validators, s.epoch) ==> after[k] == before[k])
  }

  lemma {:induction false} StoredContent<D>(s: JitoSnapshot<D>, content: Content<D>)
    requires Collected(s) && WellKeyed(SchemaOf(s), content)
    ensures HoldsSnapshot(s, content, StoredMap(SchemaOf(s), s.validators, content))
    ensures WellKeyed(SchemaOf(s), StoredMap(SchemaOf(s), s.validators, content))
  {
    StoreIsUpsert(SchemaOf(s), s.validators, content);
    forall a | a in s.validators ensures (a, s.epoch) in SnapshotKeys(s.validators, s.epoch) {
    }
  }

  /* Which entries arrive. */

  /** The row of the account of an entry has its data and the slot of the snapshot. */
  ghost predicate Arrives<D>(s: JitoSnapshot<D>, content: Content<D>, a: string)
    requires a in s.validators
  {
    var k, after := (s.validators[a].voteAccount, s.epoch), StoredMap(SchemaOf(s), s.validators, content);
    k in after && after[k].data == s.validators[a].data && after[k].epochSlot == s.loadedAtSlotIndex
  }

  /** The table with another row of the same key, if it has one. */
  function Replaced<D>(content: Content<D>, k: Key, row: JitoRow<D>): Content<D> {
    if k in content then content[k := row.(voteAccount := k.0, epoch := k.1)] else content
  }

  /** The keys decide what is new and what is clean. */
  lemma {:induction false} ReplacedClean<D(!new)>(s: JitoSnapshot<D>, content: Content<D>, k: Key, row: JitoRow<D>)
    requires WellKeyed(SchemaOf(s), content) && Clean(SchemaOf(s), s.validators, content)
    ensures var after := Replaced(content, k, row);
      && WellKeyed(SchemaOf(s), after) && Clean(SchemaOf(s), s.validators, after)
      && forall a :: IsNew(SchemaOf(s), s.validators, after, a) <==> IsNew(SchemaOf(s), s.validators, content, a)
  {
    var schema, after := SchemaOf(s), Replaced(content, k, row);
    assert after.Keys == content.Keys;
    assert Updating(schema, s.validators, after) == Updating(schema, s.validators, content);
  }

  /** An entry always gets into the row of its account, whatever that row says, exactly
      when its key has no row in the epoch, or it is of the epoch of the snapshot and its
      account has a row.  Filed under its own account it is the epoch that decides. */
  lemma {:induction false} EntryOfEpochArrives<D(!new)>(s: JitoSnapshot<D>, content: Content<D>, a: string)
    requires WellKeyed(SchemaOf(s), content) && Clean(SchemaOf(s), s.validators, content)
    requires a in s.validators && Single(SchemaOf(s), s.validators, a)
    ensures var e := s.validators[a];
      (forall row: JitoRow<D> :: Arrives(s, Replaced(content, (e.voteAccount, s.epoch), row), a)) <==>
        (a, s.epoch) !in content || (e.epoch == s.epoch && (e.voteAccount, s.epoch) in content)
  {
    var schema, e := SchemaOf(s), s.validators[a];
    var k := (e.voteAccount, s.epoch);
    forall row: JitoRow<D> ensures Arrives(s, Replaced(content, k, row), a) <==>
      || (a, s.epoch) !in content || (e.epoch == s.epoch && k in content)
      || (k in content && row.data == e.data && row.epochSlot == s.loadedAtSlotIndex)
    {
      ReplacedClean(s, content, k, row);
      StoredAt(schema, s.validators, Replaced(content, k, row), a);
      assert IsNew(schema, s.validators, Replaced(content, k, row), a) <==> (a, s.epoch) !in content;
    }
    var other := JitoRow(e.voteAccount, e.data, s.loadedAtSlotIndex + 1, s.epoch, 0);
    if (a, s.epoch) in content && !(e.epoch == s.epoch && k in content) {
      assert !Arrives(s, Replaced(content, k, other), a);
    }
  }

  /** Otherwise the entry is lost: after storing, the rows of its account in the epoch
      are those from before. */
  lemma {:induction false} EntryLost<D(!new)>(
    s: JitoSnapshot<D>, before: seq<JitoRow<D>>, after: seq<JitoRow<D>>, inserted: seq<string>, content: Content<D>,
    a: string)
    requires Holds(SchemaOf(s), before, content) && Clean(SchemaOf(s), s.validators, content)
    requires (forall v :: v in inserted ==> v in s.validators) &&
      Stored(SchemaOf(s), s.validators, before, after, inserted)
    requires a in s.validators && Single(SchemaOf(s), s.validators, a) && (a, s.epoch) in content
    requires s.validators[a].epoch != s.epoch || (s.validators[a].voteAccount, s.epoch) !in content
    ensures forall r: JitoRow<D> :: r.voteAccount == s.validators[a].voteAccount && r.epoch == s.epoch ==>
      (r in after <==> r in before)
  {
    SchemaValid(s);
    StoreRefinesMap(SchemaOf(s), s.validators, before, after, inserted, content);
    StoredAt(SchemaOf(s), s.validators, content, a);
    var k, stored := (s.validators[a].voteAccount, s.epoch), StoredMap(SchemaOf(s), s.validators, content);
    forall r: JitoRow<D> | r.voteAccount == k.0 && r.epoch == k.1 ensures r in after <==> r in before {
      assert KeyOf(SchemaOf(s), r) == k;
    }
  }

  const NO_COUNT: Option<int> := None

  function Mev(commission: int): MevData { MevData(commission, NO_COUNT, NO_COUNT, NO_COUNT, NO_COUNT) }

  function OneRow(): Content<MevData> { map[("v", 7) := JitoRow("v", Mev(1), 50, 7, 900)] }

  /** For one validator: commission 1 stays although the snapshot of epoch 7 says 2, in
      an entry of epoch 6, or in an entry of epoch 7 of another account. */
  lemma {:induction false} LostCommission(account: string, epoch: nat)
    requires account != "v" || epoch != 7
    ensures var s := JitoSnapshot(7, 90, 1000, map["v" := JitoEntry(account, Mev(2), epoch)]);
      StoredMap(SchemaOf(s), s.validators, OneRow()) == OneRow()
  {
    var s := JitoSnapshot(7, 90, 1000, map["v" := JitoEntry(account, Mev(2), epoch)]);
    var values := Updating(SchemaOf(s), s.validators, OneRow());
    assert !IsNew(SchemaOf(s), s.validators, OneRow(), "v");
    assert !exists a :: a in values && Matches(SchemaOf(s), values[a], OneRow()[("v", 7)]);
    assert NewKeys(SchemaOf(s), s.validators, OneRow()) == {};
  }

  /** Two entries of the file that carry the same account, without a row in the epoch:
      the table gets two rows with one key. */
  lemma {:induction false} TwoRows(after: seq<JitoRow<MevData>>, inserted: seq<string>)
    requires forall v :: v in inserted ==> v in TwoEntries().validators
    requires Stored(SchemaOf(TwoEntries()), TwoEntries().validators, [], after, inserted)
    ensures !UniqueKeys(SchemaOf(TwoEntries()), after)
  {
    var s := TwoEntries();
    SchemaValid(s);
    StoredUnique(SchemaOf(s), s.validators, [], after, inserted, map[]);
    assert IsNew(SchemaOf(s), s.validators, map[], "v") && IsNew(SchemaOf(s), s.validators, map[], "w");
  }

  function TwoEntries(): JitoSnapshot<MevData> {
    JitoSnapshot(7, 90, 1000, map["v" := JitoEntry("w", Mev(1), 7), "w" := JitoEntry("w", Mev(2), 7)])
  }
}
