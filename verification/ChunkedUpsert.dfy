/** The way snapshots are stored into a table keyed by vote account and epoch: in chunks,
    first updates of the rows that exist for the epoch of the snapshot, then inserts of
    the rest.  The table itself does not know what a key is. */
module ChunkedUpsert {
  import opened Sequences

  /** What a particular table does: how an entry updates a row, and the row that a new
      entry becomes.  An entry carries its own vote account and epoch, which need not be
      the key it has in the file nor the epoch of the snapshot: the update matches on
      them, the selection of existing rows on the key and the epoch of the snapshot. */
  datatype Schema<!R, !E> = Schema(
    account: R -> string, epoch: R -> nat, entryAccount: E -> string, entryEpoch: E -> nat,
    snapshotEpoch: nat, apply: (R, E) -> R, make: E -> R)

  ghost predicate ValidSchema<R(!new), E(!new)>(schema: Schema<R, E>) {
    && (forall r, e :: schema.account(schema.apply(r, e)) == schema.account(r))
    && (forall r, e :: schema.epoch(schema.apply(r, e)) == schema.epoch(r))
    && (forall r, e :: schema.apply(schema.apply(r, e), e) == schema.apply(r, e))
    && (forall e :: schema.account(schema.make(e)) == schema.entryAccount(e))
    && (forall e :: schema.epoch(schema.make(e)) == schema.snapshotEpoch)
  }

  type Key = (string, nat)

  function KeyOf<R, E>(schema: Schema<R, E>, r: R): Key { (schema.account(r), schema.epoch(r)) }

  /** The entries of some accounts. */
  function Select<E>(entries: map<string, E>, accounts: set<string>): map<string, E> {
    map a | a in entries && a in accounts :: entries[a]
  }

  /** Whether the UPDATE statement joins an entry to a row. */
  predicate Matches<R, E>(schema: Schema<R, E>, e: E, r: R) {
    (schema.entryAccount(e), schema.entryEpoch(e)) == KeyOf(schema, r)
  }

  /** What the UPDATE statement does to one row; of several entries that match the
      database takes any. */
  ghost predicate UpdatedTo<R, E>(schema: Schema<R, E>, values: map<string, E>, r: R, after: R) {
    if exists a :: a in values && Matches(schema, values[a], r)
    then exists a :: a in values && Matches(schema, values[a], r) && after == schema.apply(r, values[a])
    else after == r
  }

  /** No two entries are for the same row. */
  ghost predicate Unambiguous<R, E>(schema: Schema<R, E>, values: map<string, E>) {
    forall a, b :: a in values && b in values && a != b ==>
      (schema.entryAccount(values[a]), schema.entryEpoch(values[a]))
        != (schema.entryAccount(values[b]), schema.entryEpoch(values[b]))
  }

  /** The row after the UPDATE statement when at most one entry matches. */
  ghost function UpdateOf<R, E>(schema: Schema<R, E>, values: map<string, E>, r: R): R {
    if exists a :: a in values && Matches(schema, values[a], r) then
      var a :| a in values && Matches(schema, values[a], r);
      schema.apply(r, values[a])
    else r
  }

  lemma {:induction false} UpdateOfMatch<R, E>(schema: Schema<R, E>, values: map<string, E>, r: R, a: string)
    requires Unambiguous(schema, values) && a in values && Matches(schema, values[a], r)
    ensures UpdateOf(schema, values, r) == schema.apply(r, values[a])
  {
  }

  function Min(a: nat, b: nat): nat { if a <= b then a else b }

  /** The accounts with a row in the epoch of the snapshot. */
  function Existing<R, E>(schema: Schema<R, E>, rows: seq<R>): (r: seq<string>)
    ensures forall a :: a in r <==> exists i ::
      0 <= i < |rows| && schema.account(rows[i]) == a && schema.epoch(rows[i]) == schema.snapshotEpoch
  {
    if rows == [] then []
    else
      var rest := Existing(schema, rows[1..]);
      assert forall i :: 1 <= i < |rows| ==> rows[i] == rows[1..][i - 1];
      if schema.epoch(rows[0]) == schema.snapshotEpoch then [schema.account(rows[0])] + rest else rest
  }

  ghost function Elements<T>(s: seq<T>): set<T> { set x | x in s }

  ghost predicate Distinct<T>(s: seq<T>) {
    forall i, j :: 0 <= i < j < |s| ==> s[i] != s[j]
  }

  /** The rows made from the entries of some accounts. */
  function MakeAll<R, E>(schema: Schema<R, E>, entries: map<string, E>, accounts: seq<string>): (r: seq<R>)
    requires forall a :: a in accounts ==> a in entries
    ensures |r| == |accounts|
  {
    seq(|accounts|, i requires 0 <= i < |accounts| && accounts[i] in entries => schema.make(entries[accounts[i]]))
  }

  /** The UPDATE statement. */
  method UpdateRows<R, E>(schema: Schema<R, E>, values: map<string, E>, rows: seq<R>) returns (after: seq<R>)
    ensures |after| == |rows|
    ensures forall i :: 0 <= i < |rows| ==> UpdatedTo(schema, values, rows[i], after[i])
  {
    after := [];
    for i := 0 to |rows|
      invariant |after| == i
      invariant forall k :: 0 <= k < i ==> UpdatedTo(schema, values, rows[k], after[k])
    {
      if a :| a in values && Matches(schema, values[a], rows[i]) {
        after := after + [schema.apply(rows[i], values[a])];
      } else {
        after := after + [rows[i]];
      }
    }
  }

  /** Rows after some updates: their keys stay, and if the entries are unambiguous each
      has been updated by the one that matches it. */
  ghost predicate RowsUpdated<R, E>(
    schema: Schema<R, E>, all: map<string, E>, values: map<string, E>, before: seq<R>, after: seq<R>)
  {
    && |after| == |before|
    && (forall i :: 0 <= i < |before| ==> KeyOf(schema, after[i]) == KeyOf(schema, before[i]))
    && (Unambiguous(schema, all) ==>
          forall i :: 0 <= i < |before| ==> after[i] == UpdateOf(schema, values, before[i]))
  }

  class Table<R(!new), E(!new)> {
    var rows: seq<R>

    constructor (rows: seq<R>)
      ensures this.rows == rows
    {
      this.rows := rows;
    }

    /** The chunks of updates. */
    method UpdateExisting(schema: Schema<R, E>, entries: map<string, E>, chunkSize: nat) returns (updated: set<string>)
      requires ValidSchema(schema) && 0 < chunkSize
      modifies this
      ensures updated == Elements(Existing(schema, old(rows))) * entries.Keys
      ensures RowsUpdated(schema, Select(entries, updated), Select(entries, updated), old(rows), rows)
    {
      var existing := Existing(schema, rows);
      ghost var all := Elements(existing) * entries.Keys;
      updated := {};
      var i := 0;
      while i < |existing|
        invariant i <= |existing|
        invariant updated == Elements(existing[..i]) * entries.Keys && updated <= all
        invariant RowsUpdated(schema, Select(entries, all), Select(entries, updated), old(rows), rows)
      {
        var next := Min(i + chunkSize, |existing|);
        var chunk := existing[i..next];
        var chunkAccounts := set a | a in chunk && a in entries;
        var before := rows;
        rows := UpdateRows(schema, Select(entries, chunkAccounts), before);
        ElementsMore(existing, i, next, entries);
        UpdateMore(schema, entries, all, updated, chunkAccounts, old(rows), before, rows);
        updated := updated + chunkAccounts;
        i := next;
      }
      assert existing[..|existing|] == existing;
    }

    /** The chunks of inserts. */
    method InsertMissing(schema: Schema<R, E>, entries: map<string, E>, missing: seq<string>, chunkSize: nat)
      requires 0 < chunkSize && forall a :: a in missing ==> a in entries
      modifies this
      ensures rows == old(rows) + MakeAll(schema, entries, missing)
    {
      var i := 0;
      while i < |missing|
        invariant i <= |missing|
        invariant rows == old(rows) + MakeAll(schema, entries, missing[..i])
      {
        var next := Min(i + chunkSize, |missing|);
        var chunk := missing[i..next];
        rows := rows + MakeAll(schema, entries, chunk);
        MakeMore(schema, entries, missing, i, next);
        i := next;
      }
      assert missing[..|missing|] == missing;
    }

    method Store(schema: Schema<R, E>, entries: map<string, E>, chunkSize: nat)
      returns (updated: set<string>, inserted: seq<string>)
      requires ValidSchema(schema) && 0 < chunkSize
      modifies this
      ensures updated == Elements(Existing(schema, old(rows))) * entries.Keys
      ensures forall a :: a in inserted ==> a in entries
      ensures Stored(schema, entries, old(rows), rows, inserted)
    {
      updated := UpdateExisting(schema, entries, chunkSize);
      inserted := ListOf(entries.Keys - updated);
      InsertMissing(schema, entries, inserted, chunkSize);
    }
  }

  lemma {:induction false} ElementsMore<E>(existing: seq<string>, i: nat, next: nat, entries: map<string, E>)
    requires i <= next <= |existing|
    ensures Elements(existing[..next]) * entries.Keys
      == Elements(existing[..i]) * entries.Keys + set a | a in existing[i..next] && a in entries
    ensures Elements(existing[..next]) * entries.Keys <= Elements(existing) * entries.Keys
  {
    assert existing[..next] == existing[..i] + existing[i..next];
  }

  lemma {:induction false} MakeMore<R, E>(
      schema: Schema<R, E>, entries: map<string, E>, missing: seq<string>, i: nat, next: nat)
    requires i <= next <= |missing| && forall a :: a in missing ==> a in entries
    ensures MakeAll(schema, entries, missing[..next])
      == MakeAll(schema, entries, missing[..i]) + MakeAll(schema, entries, missing[i..next])
  {
    assert missing[..next] == missing[..i] + missing[i..next];
  }

  /** The elements of a set in some order. */
  method ListOf(s: set<string>) returns (list: seq<string>)
    ensures Distinct(list) && Elements(list) == s
    ensures forall a :: a in list ==> a in s
  {
    list := [];
    var todo := s;
    while todo != {}
      invariant todo <= s && Distinct(list)
      invariant forall a :: a in list <==> a in s && a !in todo
      decreases todo
    {
      var a :| a in todo;
      list, todo := list + [a], todo - {a};
    }
  }

  lemma {:induction false} UpdateRowMore<R(!new), E(!new)>(
    schema: Schema<R, E>, entries: map<string, E>, all: set<string>, a: set<string>, b: set<string>, r: R, mid: R,
    after: R)
    requires ValidSchema(schema) && a <= all && b <= all && Unambiguous(schema, Select(entries, all))
    requires mid == UpdateOf(schema, Select(entries, a), r) && UpdatedTo(schema, Select(entries, b), mid, after)
    ensures after == UpdateOf(schema, Select(entries, a + b), r)
  {
    if v :| v in Select(entries, a + b) && Matches(schema, entries[v], r) {
      UpdateRowMatched(schema, entries, all, a, b, r, mid, after, v);
    } else {
      assert forall u :: u in Select(entries, a) ==> u in Select(entries, a + b);
      assert forall u :: u in Select(entries, b) ==> u in Select(entries, a + b);
    }
  }

  lemma {:induction false} UpdateRowMatched<R(!new), E(!new)>(
    schema: Schema<R, E>, entries: map<string, E>, all: set<string>, a: set<string>, b: set<string>,
    r: R, mid: R, after: R, v: string)
    requires ValidSchema(schema) && a <= all && b <= all && Unambiguous(schema, Select(entries, all))
    requires mid == UpdateOf(schema, Select(entries, a), r) && UpdatedTo(schema, Select(entries, b), mid, after)
    requires v in Select(entries, a + b) && Matches(schema, entries[v], r)
    ensures after == UpdateOf(schema, Select(entries, a + b), r)
  {
    forall u | u in Select(entries, all) && Matches(schema, entries[u], r) ensures u == v {
      assert u in Select(entries, all) && v in Select(entries, all);
    }
    UpdateOfMatch(schema, Select(entries, a + b), r, v);
    if v in a {
      UpdateOfMatch(schema, Select(entries, a), r, v);
    } else {
      assert v in Select(entries, b) && Matches(schema, Select(entries, b)[v], mid);
    }
  }

  lemma {:induction false} UpdateMore<R(!new), E(!new)>(
    schema: Schema<R, E>, entries: map<string, E>, all: set<string>, a: set<string>, b: set<string>,
    before: seq<R>, mid: seq<R>, after: seq<R>)
    requires ValidSchema(schema) && a <= all && b <= all
    requires RowsUpdated(schema, Select(entries, all), Select(entries, a), before, mid)
    requires |after| == |mid| && forall i :: 0 <= i < |mid| ==> UpdatedTo(schema, Select(entries, b), mid[i], after[i])
    ensures RowsUpdated(schema, Select(entries, all), Select(entries, a + b), before, after)
  {
    if Unambiguous(schema, Select(entries, all)) {
      forall i | 0 <= i < |before| ensures after[i] == UpdateOf(schema, Select(entries, a + b), before[i]) {
        UpdateRowMore(schema, entries, all, a, b, before[i], mid[i], after[i]);
      }
    }
  }

  /* What storing means for the table as a map. */

  ghost predicate UniqueKeys<R, E>(schema: Schema<R, E>, rows: seq<R>) {
    forall i, j :: 0 <= i < j < |rows| ==> KeyOf(schema, rows[i]) != KeyOf(schema, rows[j])
  }

  ghost predicate WellKeyed<R, E>(schema: Schema<R, E>, table: map<Key, R>) {
    forall k :: k in table ==> KeyOf(schema, table[k]) == k
  }

  ghost predicate Holds<R, E>(schema: Schema<R, E>, rows: seq<R>, table: map<Key, R>) {
    && UniqueKeys(schema, rows) && WellKeyed(schema, table)
    && (forall r :: r in rows ==> KeyOf(schema, r) in table && table[KeyOf(schema, r)] == r)
    && (forall k :: k in table ==> table[k] in rows)
  }

  /** What one run of Store does to the rows. */
  ghost predicate Stored<R, E>(
      schema: Schema<R, E>, entries: map<string, E>, before: seq<R>, after: seq<R>, inserted: seq<string>)
    requires forall a :: a in inserted ==> a in entries
  {
    var values := Select(entries, Elements(Existing(schema, before)) * entries.Keys);
    && Distinct(inserted) && Elements(inserted) == entries.Keys - Elements(Existing(schema, before)) * entries.Keys
    && |after| == |before| + |inserted|
    && RowsUpdated(schema, values, values, before, after[..|before|])
    && forall i :: 0 <= i < |inserted| ==> after[|before| + i] == schema.make(entries[inserted[i]])
  }

  /** The accounts of a snapshot, with its epoch. */
  function SnapshotKeys<E>(entries: map<string, E>, epoch: nat): set<Key> {
    set a | a in entries :: (a, epoch)
  }

  /** The entries that go into the update: those whose key has a row in the epoch. */
  function Updating<R, E>(schema: Schema<R, E>, entries: map<string, E>, table: map<Key, R>): map<string, E> {
    map a | a in entries && (a, schema.snapshotEpoch) in table :: entries[a]
  }

  /** The row an entry is inserted as. */
  function EntryKey<R, E>(schema: Schema<R, E>, e: E): Key { (schema.entryAccount(e), schema.snapshotEpoch) }

  predicate IsNew<R, E>(schema: Schema<R, E>, entries: map<string, E>, table: map<Key, R>, a: string) {
    a in entries && (a, schema.snapshotEpoch) !in table
  }

  /** The entries to insert have keys of their own and none that the table has. */
  ghost predicate CleanInserts<R, E>(schema: Schema<R, E>, entries: map<string, E>, table: map<Key, R>) {
    && (forall a :: IsNew(schema, entries, table, a) ==> EntryKey(schema, entries[a]) !in table)
    && (forall a, b :: IsNew(schema, entries, table, a) && IsNew(schema, entries, table, b) && a != b ==>
          EntryKey(schema, entries[a]) != EntryKey(schema, entries[b]))
  }

  /** Storing has one outcome, and the outcome has unique keys. */
  ghost predicate Clean<R, E>(schema: Schema<R, E>, entries: map<string, E>, table: map<Key, R>) {
    CleanInserts(schema, entries, table) && Unambiguous(schema, Updating(schema, entries, table))
  }

  function NewKeys<R, E>(schema: Schema<R, E>, entries: map<string, E>, table: map<Key, R>): set<Key> {
    set a | a in entries && IsNew(schema, entries, table, a) :: EntryKey(schema, entries[a])
  }

  ghost function NewAccount<R, E>(
      schema: Schema<R, E>, entries: map<string, E>, table: map<Key, R>, k: Key): (a: string)
    requires k in NewKeys(schema, entries, table)
    ensures IsNew(schema, entries, table, a) && EntryKey(schema, entries[a]) == k
  {
    var a :| IsNew(schema, entries, table, a) && EntryKey(schema, entries[a]) == k;
    a
  }

  /** The effect of Store on the table as a map: what has a row under its key goes into
      the update, and the rest is inserted under its own account. */
  ghost function StoredMap<R, E>(schema: Schema<R, E>, entries: map<string, E>, table: map<Key, R>): map<Key, R> {
    map k | k in table.Keys + NewKeys(schema, entries, table) ::
      if k in table then UpdateOf(schema, Updating(schema, entries, table), table[k])
      else schema.make(entries[NewAccount(schema, entries, table, k)])
  }

  /** A plain map upsert: existing keys of the snapshot are updated, the others added. */
  function Upserted<R, E>(schema: Schema<R, E>, entries: map<string, E>, table: map<Key, R>): map<Key, R> {
    map k | k in table.Keys + SnapshotKeys(entries, schema.snapshotEpoch) ::
      if k !in table then schema.make(entries[k.0])
      else if k in SnapshotKeys(entries, schema.snapshotEpoch) then schema.apply(table[k], entries[k.0])
      else table[k]
  }

  lemma {:induction false} ExistingKeys<R, E>(schema: Schema<R, E>, rows: seq<R>, table: map<Key, R>, a: string)
    requires Holds(schema, rows, table)
    ensures a in Existing(schema, rows) <==> (a, schema.snapshotEpoch) in table
  {
    if (a, schema.snapshotEpoch) in table {
      var i :| 0 <= i < |rows| && rows[i] == table[(a, schema.snapshotEpoch)];
      assert schema.account(rows[i]) == a;
    }
    if a in Existing(schema, rows) {
      var i :| 0 <= i < |rows| && schema.account(rows[i]) == a && schema.epoch(rows[i]) == schema.snapshotEpoch;
      assert rows[i] in rows;
    }
  }

  /** The rows tell the map which entries are updates and which are inserts. */
  lemma {:induction false} SameSplit<R, E>(
      schema: Schema<R, E>, entries: map<string, E>, rows: seq<R>, table: map<Key, R>)
    requires Holds(schema, rows, table)
    ensures Select(entries, Elements(Existing(schema, rows)) * entries.Keys) == Updating(schema, entries, table)
    ensures forall a :: a in entries.Keys - Elements(Existing(schema, rows)) * entries.Keys <==>
      IsNew(schema, entries, table, a)
  {
    forall a ensures a in Existing(schema, rows) <==> (a, schema.snapshotEpoch) in table {
      ExistingKeys(schema, rows, table, a);
    }
  }

  /** Where row i of the table after storing comes from. */
  lemma {:induction false} StoredKeyAt<R(!new), E(!new)>(
    schema: Schema<R, E>, entries: map<string, E>, before: seq<R>, after: seq<R>, inserted: seq<string>,
    table: map<Key, R>, i: nat)
    requires ValidSchema(schema) && Holds(schema, before, table)
    requires (forall a :: a in inserted ==> a in entries) && Stored(schema, entries, before, after, inserted)
    requires i < |after|
    ensures |after| == |before| + |inserted|
    ensures i < |before| ==> KeyOf(schema, after[i]) == KeyOf(schema, before[i]) && KeyOf(schema, after[i]) in table
    ensures i >= |before| ==>
      var a := inserted[i - |before|];
      IsNew(schema, entries, table, a) && KeyOf(schema, after[i]) == EntryKey(schema, entries[a])
  {
    SameSplit(schema, entries, before, table);
    if i < |before| {
      assert after[..|before|][i] == after[i] && before[i] in before;
    } else {
      assert inserted[i - |before|] in Elements(inserted);
      assert after[|before| + (i - |before|)] == after[i];
    }
  }

  lemma {:induction false} InsertedAt<R(!new), E(!new)>(
    schema: Schema<R, E>, entries: map<string, E>, before: seq<R>, after: seq<R>, inserted: seq<string>,
    table: map<Key, R>, a: string)
    returns (j: nat)
    requires ValidSchema(schema) && Holds(schema, before, table)
    requires (forall v :: v in inserted ==> v in entries) && Stored(schema, entries, before, after, inserted)
    requires IsNew(schema, entries, table, a)
    ensures j < |inserted| && |after| == |before| + |inserted| && inserted[j] == a
    ensures KeyOf(schema, after[|before| + j]) == EntryKey(schema, entries[a])
  {
    SameSplit(schema, entries, before, table);
    assert a in Elements(inserted);
    j :| 0 <= j < |inserted| && inserted[j] == a;
    StoredKeyAt(schema, entries, before, after, inserted, table, |before| + j);
  }

  /** No run creates duplicates exactly when the entries to insert carry accounts of
      their own without a row in the epoch. */
  lemma {:induction false} StoredUnique<R(!new), E(!new)>(
    schema: Schema<R, E>, entries: map<string, E>, before: seq<R>, after: seq<R>, inserted: seq<string>,
    table: map<Key, R>)
    requires ValidSchema(schema) && Holds(schema, before, table)
    requires (forall a :: a in inserted ==> a in entries) && Stored(schema, entries, before, after, inserted)
    ensures UniqueKeys(schema, after) <==> CleanInserts(schema, entries, table)
  {
    if CleanInserts(schema, entries, table) {
      CleanIsUnique(schema, entries, before, after, inserted, table);
    }
    if UniqueKeys(schema, after) {
      UniqueIsClean(schema, entries, before, after, inserted, table);
    }
  }

  lemma {:induction false} CleanIsUnique<R(!new), E(!new)>(
    schema: Schema<R, E>, entries: map<string, E>, before: seq<R>, after: seq<R>, inserted: seq<string>,
    table: map<Key, R>)
    requires ValidSchema(schema) && Holds(schema, before, table)
    requires (forall a :: a in inserted ==> a in entries) && Stored(schema, entries, before, after, inserted)
    requires CleanInserts(schema, entries, table)
    ensures UniqueKeys(schema, after)
  {
    forall i, j | 0 <= i < j < |after| ensures KeyOf(schema, after[i]) != KeyOf(schema, after[j]) {
      StoredKeyAt(schema, entries, before, after, inserted, table, i);
      StoredKeyAt(schema, entries, before, after, inserted, table, j);
      if |before| <= i {
        assert inserted[i - |before|] != inserted[j - |before|];
      }
    }
  }

  lemma {:induction false} UniqueIsFresh<R(!new), E(!new)>(
    schema: Schema<R, E>, entries: map<string, E>, before: seq<R>, after: seq<R>, inserted: seq<string>,
    table: map<Key, R>,
    a: string)
    requires ValidSchema(schema) && Holds(schema, before, table)
    requires (forall v :: v in inserted ==> v in entries) && Stored(schema, entries, before, after, inserted)
    requires UniqueKeys(schema, after)
    requires IsNew(schema, entries, table, a)
    ensures EntryKey(schema, entries[a]) !in table
  {
    var k := EntryKey(schema, entries[a]);
    var j := InsertedAt(schema, entries, before, after, inserted, table, a);
    forall i | 0 <= i < |before| ensures KeyOf(schema, before[i]) != k {
      StoredKeyAt(schema, entries, before, after, inserted, table, i);
      assert KeyOf(schema, after[i]) != KeyOf(schema, after[|before| + j]);
    }
  }

  lemma {:induction false} UniqueIsDistinct<R(!new), E(!new)>(
    schema: Schema<R, E>, entries: map<string, E>, before: seq<R>, after: seq<R>, inserted: seq<string>,
    table: map<Key, R>,
    a: string, b: string)
    requires ValidSchema(schema) && Holds(schema, before, table)
    requires (forall v :: v in inserted ==> v in entries) && Stored(schema, entries, before, after, inserted)
    requires UniqueKeys(schema, after)
    requires IsNew(schema, entries, table, a) && IsNew(schema, entries, table, b) && a != b
    ensures EntryKey(schema, entries[a]) != EntryKey(schema, entries[b])
  {
    var i := InsertedAt(schema, entries, before, after, inserted, table, a);
    var j := InsertedAt(schema, entries, before, after, inserted, table, b);
    assert i != j;
  }

  lemma {:induction false} UniqueIsClean<R(!new), E(!new)>(
    schema: Schema<R, E>, entries: map<string, E>, before: seq<R>, after: seq<R>, inserted: seq<string>,
    table: map<Key, R>)
    requires ValidSchema(schema) && Holds(schema, before, table)
    requires (forall v :: v in inserted ==> v in entries) && Stored(schema, entries, before, after, inserted)
    requires UniqueKeys(schema, after)
    ensures CleanInserts(schema, entries, table)
  {
    forall a | IsNew(schema, entries, table, a) ensures EntryKey(schema, entries[a]) !in table {
      UniqueIsFresh(schema, entries, before, after, inserted, table, a);
    }
    forall a, b | IsNew(schema, entries, table, a) && IsNew(schema, entries, table, b) && a != b
      ensures EntryKey(schema, entries[a]) != EntryKey(schema, entries[b])
    {
      UniqueIsDistinct(schema, entries, before, after, inserted, table, a, b);
    }
  }

  lemma {:induction false} StoredRow<R(!new), E(!new)>(
    schema: Schema<R, E>, entries: map<string, E>, before: seq<R>, after: seq<R>, inserted: seq<string>,
    table: map<Key, R>, i: nat)
    requires ValidSchema(schema) && Holds(schema, before, table) && Clean(schema, entries, table)
    requires (forall a :: a in inserted ==> a in entries) && Stored(schema, entries, before, after, inserted)
    requires i < |after|
    ensures var k, stored := KeyOf(schema, after[i]), StoredMap(schema, entries, table);
      k in stored && stored[k] == after[i]
  {
    StoredKeyAt(schema, entries, before, after, inserted, table, i);
    SameSplit(schema, entries, before, table);
    var n, k := |before|, KeyOf(schema, after[i]);
    if i < n {
      assert after[..n][i] == after[i] && before[i] in before;
      assert table[k] == before[i];
    } else {
      var a := inserted[i - n];
      assert k in NewKeys(schema, entries, table);
      assert NewAccount(schema, entries, table, k) == a;
      assert after[n + (i - n)] == schema.make(entries[a]);
    }
  }

  lemma {:induction false} StoredMapKeys<R(!new), E(!new)>(
      schema: Schema<R, E>, entries: map<string, E>, table: map<Key, R>)
    requires ValidSchema(schema) && WellKeyed(schema, table)
    ensures WellKeyed(schema, StoredMap(schema, entries, table))
  {
  }

  /** Every key of the map after storing has its row. */
  lemma {:induction false} StoredKey<R(!new), E(!new)>(
    schema: Schema<R, E>, entries: map<string, E>, before: seq<R>, after: seq<R>, inserted: seq<string>,
    table: map<Key, R>, k: Key)
    returns (i: nat)
    requires ValidSchema(schema) && Holds(schema, before, table)
    requires (forall a :: a in inserted ==> a in entries) && Stored(schema, entries, before, after, inserted)
    requires k in StoredMap(schema, entries, table)
    ensures i < |after| && KeyOf(schema, after[i]) == k
  {
    if k in table {
      i :| 0 <= i < |before| && before[i] == table[k];
      StoredKeyAt(schema, entries, before, after, inserted, table, i);
    } else {
      var a := NewAccount(schema, entries, table, k);
      var j := InsertedAt(schema, entries, before, after, inserted, table, a);
      i := |before| + j;
    }
  }

  /** Refinement: the rows after storing hold the map after storing. */
  lemma {:induction false} StoreRefinesMap<R(!new), E(!new)>(
    schema: Schema<R, E>, entries: map<string, E>, before: seq<R>, after: seq<R>, inserted: seq<string>,
    table: map<Key, R>)
    requires ValidSchema(schema) && Holds(schema, before, table) && Clean(schema, entries, table)
    requires (forall a :: a in inserted ==> a in entries) && Stored(schema, entries, before, after, inserted)
    ensures Holds(schema, after, StoredMap(schema, entries, table))
  {
    var stored := StoredMap(schema, entries, table);
    StoredUnique(schema, entries, before, after, inserted, table);
    StoredMapKeys(schema, entries, table);
    forall r | r in after ensures KeyOf(schema, r) in stored && stored[KeyOf(schema, r)] == r {
      var i :| 0 <= i < |after| && after[i] == r;
      StoredRow(schema, entries, before, after, inserted, table, i);
    }
    forall k | k in stored ensures stored[k] in after {
      var i := StoredKey(schema, entries, before, after, inserted, table, k);
      StoredRow(schema, entries, before, after, inserted, table, i);
    }
  }

  /** Every entry is filed under its own account and is of the epoch of the snapshot. */
  ghost predicate Regular<R, E>(schema: Schema<R, E>, entries: map<string, E>) {
    forall a :: a in entries ==>
      schema.entryAccount(entries[a]) == a && schema.entryEpoch(entries[a]) == schema.snapshotEpoch
  }

  /** Then storing has one outcome, whatever the table holds, and it is a map upsert. */
  lemma {:induction false} StoreIsUpsert<R, E>(schema: Schema<R, E>, entries: map<string, E>, table: map<Key, R>)
    requires Regular(schema, entries) && WellKeyed(schema, table)
    ensures Clean(schema, entries, table)
    ensures StoredMap(schema, entries, table) == Upserted(schema, entries, table)
  {
    var stored, upserted, values := StoredMap(schema, entries, table), Upserted(schema, entries, table),
      Updating(schema, entries, table);
    forall k ensures k in stored <==> k in upserted {
      if k in SnapshotKeys(entries, schema.snapshotEpoch) && k !in table {
        assert IsNew(schema, entries, table, k.0) && EntryKey(schema, entries[k.0]) == k;
      }
    }
    forall k | k in stored ensures stored[k] == upserted[k] {
      if k in table && k in SnapshotKeys(entries, schema.snapshotEpoch) {
        UpdateOfMatch(schema, values, table[k], k.0);
      }
    }
  }

  /** No other entry carries the account of this one. */
  ghost predicate Single<R, E>(schema: Schema<R, E>, entries: map<string, E>, a: string)
    requires a in entries
  {
    forall b :: b in entries && b != a ==> schema.entryAccount(entries[b]) != schema.entryAccount(entries[a])
  }

  /** What storing makes of the row of such an entry. */
  lemma {:induction false} StoredAt<R, E>(schema: Schema<R, E>, entries: map<string, E>, table: map<Key, R>, a: string)
    requires WellKeyed(schema, table) && Clean(schema, entries, table) && a in entries && Single(schema, entries, a)
    ensures var e, k, stored := entries[a], EntryKey(schema, entries[a]), StoredMap(schema, entries, table);
      && (k in stored <==> k in table || IsNew(schema, entries, table, a))
      && (k in table && schema.entryEpoch(e) == schema.snapshotEpoch ==> stored[k] == schema.apply(table[k], e))
      && (k in table && schema.entryEpoch(e) != schema.snapshotEpoch ==> stored[k] == table[k])
      && (IsNew(schema, entries, table, a) ==> k !in table && stored[k] == schema.make(e))
  {
    var k, values := EntryKey(schema, entries[a]), Updating(schema, entries, table);
    if k in table {
      if schema.entryEpoch(entries[a]) == schema.snapshotEpoch {
        UpdateOfMatch(schema, values, table[k], a);
      } else {
        assert !exists b :: b in values && Matches(schema, values[b], table[k]);
      }
    } else if IsNew(schema, entries, table, a) {
      assert k in NewKeys(schema, entries, table);
    }
  }

  /** An entry arrives in the row of its account, as an upsert under that account would
      leave it, exactly when its key has no row in the epoch, or it is of the epoch of
      the snapshot and its account has a row, or that row already said the same. */
  lemma {:induction false} EntryArrives<R, E>(
      schema: Schema<R, E>, entries: map<string, E>, table: map<Key, R>, a: string)
    requires WellKeyed(schema, table) && Clean(schema, entries, table) && a in entries && Single(schema, entries, a)
    ensures var e, k, stored := entries[a], EntryKey(schema, entries[a]), StoredMap(schema, entries, table);
      (k in stored && stored[k] == if k in table then schema.apply(table[k], e) else schema.make(e)) <==>
        || IsNew(schema, entries, table, a)
        || (k in table && schema.entryEpoch(e) == schema.snapshotEpoch)
        || (k in table && schema.apply(table[k], e) == table[k])
  {
    StoredAt(schema, entries, table, a);
  }
}
