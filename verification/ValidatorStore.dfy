/** Storing validator snapshots: the same upsert with a version that an unknown one does
    not overwrite, and columns that only closing the epoch fills in. */
module ValidatorStore {
  import opened ChunkedUpsert
  import opened Wrappers

  const DEFAULT_CHUNK_SIZE: nat := 500

  /** The columns of the validators table besides its key. */
  datatype Column =
    | Identity | InfoName | InfoUrl | InfoKeybase | InfoIconUrl | NodeIp
    | CoordinatesLat | CoordinatesLon | Continent | CountryIso | Country | City | Asn | Aso
    | CommissionMaxObserved | CommissionMinObserved | CommissionAdvertised | CommissionEffective | Version
    | ActivatedStake | MarinadeStake | FoundationStake | MarinadeNativeStake | InstitutionalStake | SelfStake
    | Superminority | StakeToBecomeSuperminority | Credits | LeaderSlots | BlocksProduced | SkipRate
    | UptimePct | Uptime | Downtime | UpdatedAt

  datatype Value = Null | Text(text: string) | Number(number: real) | Flag(flag: bool) | Time(at: int)

  type Values = map<Column, Value>

  function At(values: Values, c: Column): Value { if c in values then values[c] else Null }

  function Coalesce(a: Value, b: Value): Value { if a.Null? then b else a }

  datatype Coordinates = Coordinates(lon: real, lat: real)

  /** A validator as it was collected: the pair of coordinates is longitude first; the
      other collected values go by the columns they are meant for. */
  datatype ValidatorSnapshot = ValidatorSnapshot(voteAccount: string, coordinates: Option<(real, real)>, values: Values)

  /** A validator on its way into the table. */
  datatype Validator = Validator(voteAccount: string, epoch: nat, values: Values)

  datatype ValidatorRow = ValidatorRow(voteAccount: string, epoch: nat, values: Values)

  /** The columns that are null until the epoch is closed. */
  predicate IsObserved(c: Column) {
    c.CommissionMaxObserved? || c.CommissionMinObserved? || c.CommissionEffective? || c.UptimePct? || c.Uptime? ||
      c.Downtime?
  }

  /** The collector packs the coordinates. */
  function PackCoordinates(c: Option<Coordinates>): Option<(real, real)> {
    if c.None? then None else Some((c.value.lon, c.value.lat))
  }

  /** The conversion takes the first of the pair for the latitude. */
  function SnapshotValue(v: ValidatorSnapshot, c: Column): Value {
    match c
    case CoordinatesLat => if v.coordinates.None? then Null else Number(v.coordinates.value.0)
    case CoordinatesLon => if v.coordinates.None? then Null else Number(v.coordinates.value.1)
    case _ => if IsObserved(c) || c.UpdatedAt? then Null else At(v.values, c)
  }

  function NewFromSnapshot(v: ValidatorSnapshot, epoch: nat): Validator {
    Validator(v.voteAccount, epoch, SnapshotValues(v))
  }

  function SnapshotValues(v: ValidatorSnapshot): (r: Values)
    ensures forall c: Column :: At(r, c) == SnapshotValue(v, c)
  {
    map c: Column :: SnapshotValue(v, c)
  }

  function RowAccount(r: ValidatorRow): string { r.voteAccount }

  function RowEpoch(r: ValidatorRow): nat { r.epoch }

  function EntryAccount(v: Validator): string { v.voteAccount }

  function EntryEpoch(v: Validator): nat { v.epoch }

  /** Both statements pass the longitude for the latitude column and the other way
      round; the update keeps a known version under a null one, and what was observed. */
  function UpdatedValue(known: Values, values: Values, createdAt: int, c: Column): Value {
    match c
    case CoordinatesLat => At(values, CoordinatesLon)
    case CoordinatesLon => At(values, CoordinatesLat)
    case Version => Coalesce(At(values, Version), At(known, Version))
    case UpdatedAt => Time(createdAt)
    case _ => if IsObserved(c) then At(known, c) else At(values, c)
  }

  function InsertedValue(values: Values, createdAt: int, c: Column): Value {
    match c
    case CoordinatesLat => At(values, CoordinatesLon)
    case CoordinatesLon => At(values, CoordinatesLat)
    case UpdatedAt => Time(createdAt)
    case _ => At(values, c)
  }

  function UpdatedValues(known: Values, values: Values, createdAt: int): (r: Values)
    ensures forall c: Column :: At(r, c) == UpdatedValue(known, values, createdAt, c)
  {
    map c: Column :: UpdatedValue(known, values, createdAt, c)
  }

  function InsertedValues(values: Values, createdAt: int): (r: Values)
    ensures forall c: Column :: At(r, c) == InsertedValue(values, createdAt, c)
  {
    map c: Column :: InsertedValue(values, createdAt, c)
  }

  function Apply(createdAt: int): (ValidatorRow, Validator) -> ValidatorRow {
    (r: ValidatorRow, v: Validator) => r.(values := UpdatedValues(r.values, v.values, createdAt))
  }

  function Make(epoch: nat, createdAt: int): Validator -> ValidatorRow {
    (v: Validator) => ValidatorRow(v.voteAccount, epoch, InsertedValues(v.values, createdAt))
  }

  lemma {:induction false} UpdatedTwice(known: Values, values: Values, createdAt: int)
    ensures UpdatedValues(UpdatedValues(known, values, createdAt), values, createdAt) ==
      UpdatedValues(known, values, createdAt)
  {
    var once := UpdatedValues(known, values, createdAt);
    forall c: Column ensures UpdatedValue(once, values, createdAt, c) == UpdatedValue(known, values, createdAt, c) {
      assert At(once, c) == UpdatedValue(known, values, createdAt, c);
    }
  }

  function SchemaOf(epoch: nat, createdAt: int): Schema<ValidatorRow, Validator> {
    Schema(RowAccount, RowEpoch, EntryAccount, EntryEpoch, epoch, Apply(createdAt), Make(epoch, createdAt))
  }

  lemma {:induction false} SchemaValid(epoch: nat, createdAt: int)
    ensures ValidSchema(SchemaOf(epoch, createdAt))
  {
    var apply := Apply(createdAt);
    forall r, v ensures apply(apply(r, v), v) == apply(r, v) {
      UpdatedTwice(r.values, v.values, createdAt);
    }
  }

  /** The snapshot by vote account. */
  function ByAccount(snapshot: seq<ValidatorSnapshot>, epoch: nat): map<string, Validator> {
    if snapshot == [] then map[]
    else
      var n := |snapshot| - 1;
      ByAccount(snapshot[..n], epoch)[snapshot[n].voteAccount := NewFromSnapshot(snapshot[n], epoch)]
  }

  /** Of several entries of one account the last counts. */
  lemma {:induction false} LastEntryCounts(snapshot: seq<ValidatorSnapshot>, epoch: nat, i: nat)
    requires i < |snapshot| && forall j :: i < j < |snapshot| ==> snapshot[j].voteAccount != snapshot[i].voteAccount
    ensures snapshot[i].voteAccount in ByAccount(snapshot, epoch)
    ensures ByAccount(snapshot, epoch)[snapshot[i].voteAccount] == NewFromSnapshot(snapshot[i], epoch)
  {
    var n := |snapshot| - 1;
    if i < n {
      assert forall j :: i < j < n ==> snapshot[..n][j] == snapshot[j];
      LastEntryCounts(snapshot[..n], epoch, i);
    }
  }

  /** Every entry is filed under its own account and carries the epoch. */
  lemma {:induction false} EntriesRegular(snapshot: seq<ValidatorSnapshot>, epoch: nat, createdAt: int)
    ensures Regular(SchemaOf(epoch, createdAt), ByAccount(snapshot, epoch))
  {
    if snapshot != [] {
      EntriesRegular(snapshot[..|snapshot| - 1], epoch, createdAt);
    }
  }

  method CollectByAccount(snapshot: seq<ValidatorSnapshot>, epoch: nat) returns (validators: map<string, Validator>)
    ensures validators == ByAccount(snapshot, epoch)
  {
    validators := map[];
    for n := 0 to |snapshot|
      invariant validators == ByAccount(snapshot[..n], epoch)
    {
      assert snapshot[..n + 1][..n] == snapshot[..n];
      validators := validators[snapshot[n].voteAccount := NewFromSnapshot(snapshot[n], epoch)];
    }
    assert snapshot[..|snapshot|] == snapshot;
  }

  method StoreValidators(
      table: Table<ValidatorRow, Validator>, snapshot: seq<ValidatorSnapshot>, epoch: nat, createdAt: int,
                         ghost content: map<Key, ValidatorRow>)
    requires Holds(SchemaOf(epoch, createdAt), table.rows, content)
    modifies table
    ensures Holds(SchemaOf(epoch, createdAt), table.rows,
      Upserted(SchemaOf(epoch, createdAt), ByAccount(snapshot, epoch), content))
  {
    var validators := CollectByAccount(snapshot, epoch);
    var schema := SchemaOf(epoch, createdAt);
    SchemaValid(epoch, createdAt);
    ghost var before := table.rows;
    var updated, inserted := table.Store(schema, validators, DEFAULT_CHUNK_SIZE);
    EntriesRegular(snapshot, epoch, createdAt);
    StoreIsUpsert(schema, validators, content);
    StoreRefinesMap(schema, validators, before, table.rows, inserted, content);
  }

  /** What a column must hold after a snapshot that says x about it. */
  ghost predicate Carries(after: Value, c: Column, x: Value, before: Value, createdAt: int) {
    match c
    case UpdatedAt => after == Time(createdAt)
    case CommissionMaxObserved => after == before
    case CommissionMinObserved => after == before
    case CommissionEffective => after == before
    case UptimePct => after == before
    case Uptime => after == before
    case Downtime => after == before
    case Version => after == if x.Null? then before else x
    case _ => after == x
  }

  /** The value of a column as it was collected, each coordinate under its own name. */
  function Collected(v: ValidatorSnapshot, c: Column): Value {
    match c
    case CoordinatesLat => if v.coordinates.None? then Null else Number(v.coordinates.value.1)
    case CoordinatesLon => if v.coordinates.None? then Null else Number(v.coordinates.value.0)
    case _ => At(v.values, c)
  }

  function BeforeAt(content: map<Key, ValidatorRow>, k: Key, c: Column): Value {
    if k in content then At(content[k].values, c) else Null
  }

  /** What one store leaves of a validator, column by column: what was collected arrives
      in its own column, the twice swapped coordinates included; a known version survives
      an unknown one, what was observed stays, and nobody else changes. */
  lemma {:induction false} StoredContent(
      snapshot: seq<ValidatorSnapshot>, epoch: nat, createdAt: int, content: map<Key, ValidatorRow>)
    ensures var after := Upserted(SchemaOf(epoch, createdAt), ByAccount(snapshot, epoch), content);
      && (forall k :: k in after <==>
        k in content || (k.1 == epoch && exists i :: 0 <= i < |snapshot| && snapshot[i].voteAccount == k.0))
      && (forall i, c :: 0 <= i < |snapshot| && IsLast(snapshot, i) ==>
            var k := (snapshot[i].voteAccount, epoch);
            k in after && Carries(At(after[k].values, c), c, Collected(snapshot[i], c), BeforeAt(content, k, c),
              createdAt))
      && (forall k :: k in content && !InSnapshot(snapshot, epoch, k) ==> k in after && after[k] == content[k])
  {
    var validators := ByAccount(snapshot, epoch);
    forall a: string ensures a in validators <==> exists i :: 0 <= i < |snapshot| && snapshot[i].voteAccount == a {
      AccountsOf(snapshot, epoch, a);
    }
    forall k ensures k in SnapshotKeys(validators, epoch) <==> k.1 == epoch && k.0 in validators {
    }
    var after := Upserted(SchemaOf(epoch, createdAt), validators, content);
    forall i, c | 0 <= i < |snapshot| && IsLast(snapshot, i)
      ensures var k := (snapshot[i].voteAccount, epoch);
        k in after && Carries(At(after[k].values, c), c, Collected(snapshot[i], c), BeforeAt(content, k, c), createdAt)
    {
      ColumnArrives(snapshot, epoch, createdAt, content, i, c);
    }
  }

  ghost predicate InSnapshot(snapshot: seq<ValidatorSnapshot>, epoch: nat, k: Key) {
    k.1 == epoch && exists i :: 0 <= i < |snapshot| && snapshot[i].voteAccount == k.0
  }

  ghost predicate IsLast(snapshot: seq<ValidatorSnapshot>, i: nat)
    requires i < |snapshot|
  {
    forall j :: i < j < |snapshot| ==> snapshot[j].voteAccount != snapshot[i].voteAccount
  }

  lemma {:induction false} AccountsOf(snapshot: seq<ValidatorSnapshot>, epoch: nat, a: string)
    ensures a in ByAccount(snapshot, epoch) <==> exists i :: 0 <= i < |snapshot| && snapshot[i].voteAccount == a
  {
    if snapshot != [] {
      var n := |snapshot| - 1;
      AccountsOf(snapshot[..n], epoch, a);
      if i :| 0 <= i < n && snapshot[..n][i].voteAccount == a {
        assert snapshot[i].voteAccount == a;
      }
      if i :| 0 <= i < n && snapshot[i].voteAccount == a {
        assert snapshot[..n][i].voteAccount == a;
      }
    }
  }

  lemma {:induction false} SnapshotSays(v: ValidatorSnapshot, c: Column)
    ensures At(SnapshotValues(v), c) == SnapshotValue(v, c)
    ensures At(SnapshotValues(v), CoordinatesLat) == Collected(v, CoordinatesLon)
    ensures At(SnapshotValues(v), CoordinatesLon) == Collected(v, CoordinatesLat)
  {
    assert At(SnapshotValues(v), CoordinatesLat) == SnapshotValue(v, CoordinatesLat);
    assert At(SnapshotValues(v), CoordinatesLon) == SnapshotValue(v, CoordinatesLon);
  }

  lemma {:induction false} UpdateCarries(v: ValidatorSnapshot, known: Values, createdAt: int, c: Column)
    ensures Carries(UpdatedValue(known, SnapshotValues(v), createdAt, c), c, Collected(v, c), At(known, c), createdAt)
  {
    SnapshotSays(v, c);
  }

  lemma {:induction false} InsertCarries(v: ValidatorSnapshot, createdAt: int, c: Column)
    ensures Carries(InsertedValue(SnapshotValues(v), createdAt, c), c, Collected(v, c), Null, createdAt)
  {
    SnapshotSays(v, c);
  }

  lemma {:induction false} UpsertedRow(
      validators: map<string, Validator>, epoch: nat, createdAt: int, content: map<Key, ValidatorRow>, a: string)
    requires a in validators
    ensures var k, after := (a, epoch), Upserted(SchemaOf(epoch, createdAt), validators, content);
      k in after && after[k].values ==
        if k in content then UpdatedValues(content[k].values, validators[a].values, createdAt)
          else InsertedValues(validators[a].values, createdAt)
  {
    assert (a, epoch) in SnapshotKeys(validators, epoch);
  }

  lemma {:induction false} ColumnArrives(
      snapshot: seq<ValidatorSnapshot>, epoch: nat, createdAt: int, content: map<Key, ValidatorRow>, i: nat, c: Column)
    requires i < |snapshot| && IsLast(snapshot, i)
    ensures var after := Upserted(SchemaOf(epoch, createdAt), ByAccount(snapshot, epoch), content);
      var k := (snapshot[i].voteAccount, epoch);
      k in after && Carries(At(after[k].values, c), c, Collected(snapshot[i], c), BeforeAt(content, k, c), createdAt)
  {
    var v := snapshot[i];
    LastEntryCounts(snapshot, epoch, i);
    UpsertedRow(ByAccount(snapshot, epoch), epoch, createdAt, content, v.voteAccount);
    var k := (v.voteAccount, epoch);
    if k in content {
      UpdateCarries(v, content[k].values, createdAt, c);
    } else {
      InsertCarries(v, createdAt, c);
    }
  }

  /** The collector packs the coordinates longitude first, so each arrives in its own
      column. */
  lemma {:induction false} CoordinatesArrive(
      p: Coordinates, v: ValidatorSnapshot, epoch: nat, createdAt: int, content: map<Key, ValidatorRow>)
    requires v.coordinates == PackCoordinates(Some(p))
    ensures var after := Upserted(SchemaOf(epoch, createdAt), ByAccount([v], epoch), content);
      var k := (v.voteAccount, epoch);
      k in after && At(after[k].values, CoordinatesLat) == Number(p.lat) &&
        At(after[k].values, CoordinatesLon) == Number(p.lon)
  {
    assert [v][0] == v;
    ColumnArrives([v], epoch, createdAt, content, 0, CoordinatesLat);
    ColumnArrives([v], epoch, createdAt, content, 0, CoordinatesLon);
  }
}
