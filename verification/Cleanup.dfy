/**
 Bounded cleanup of retired projection versions.  One pass deletes at most one batch from each
 of four tables, file rows before the records they refer to, in one transaction.
 */
module Cleanup {
  import opened Arithmetic
  import opened Collections
  import opened Options

  /** A primary key, by its place in the order the database sorts keys. */
  type Id = int

  /** A row's version, and the record a file row refers to. */
  datatype Row = Row(version: string, record: Option<Id>)

  type Table = map<Id, Row>

  datatype Name = CurrentFiles | RecordFiles | Records | Projections

  const TABLES := [CurrentFiles, RecordFiles, Records, Projections]

  datatype Store = Store(currentFiles: Table, recordFiles: Table, records: Table, projections: Table) {
    function At(name: Name): Table {
      match name
      case CurrentFiles => currentFiles
      case RecordFiles => recordFiles
      case Records => records
      case Projections => projections
    }

    function With(name: Name, table: Table): Store {
      match name
      case CurrentFiles => this.(currentFiles := table)
      case RecordFiles => this.(recordFiles := table)
      case Records => this.(records := table)
      case Projections => this.(projections := table)
    }
  }

  // ---------------------------------------------------------------------------
  // The statements
  // ---------------------------------------------------------------------------

  function Retired(table: Table, versions: set<string>): set<Id> {
    set id | id in table && table[id].version in versions
  }

  /** Records that some file row refers to, whatever its version. */
  function Referenced(files: Table): set<Id> {
    set f | f in files && files[f].record.Some? :: files[f].record.value
  }

  predicate IsLeast(x: Id, ids: set<Id>) {
    x in ids && forall y :: y in ids ==> x <= y
  }

  lemma {:induction false} LeastExists(ids: set<Id>)
    requires ids != {}
    ensures exists x :: IsLeast(x, ids)
  {
    var x := Member(ids);
    var rest := ids - {x};
    assert forall y :: y in ids ==> y == x || y in rest;
    if rest == {} {
      assert IsLeast(x, ids);
    } else {
      LeastExists(rest);
      var z :| IsLeast(z, rest);
      assert IsLeast(if x <= z then x else z, ids);
    }
  }

  function Least(ids: set<Id>): (x: Id)
    requires ids != {}
    ensures IsLeast(x, ids)
  {
    LeastExists(ids);
    var x :| IsLeast(x, ids);
    x
  }

  /** `ORDER BY key LIMIT n` */
  function Lowest(ids: set<Id>, n: nat): (chosen: set<Id>)
    ensures chosen <= ids && |chosen| == if |ids| < n then |ids| else n
  {
    if n == 0 || ids == {} then {}
    else
      var x := Least(ids);
      assert |ids - {x}| == |ids| - 1;
      {x} + Lowest(ids - {x}, n - 1)
  }

  /** A smaller key is never passed over. */
  lemma {:induction false} LowestFirst(ids: set<Id>, n: nat, x: Id, y: Id)
    requires x in Lowest(ids, n) && y in ids && y !in Lowest(ids, n)
    ensures x < y
    decreases n
  {
    var least := Least(ids);
    if x == least {
      assert least in Lowest(ids, n);
    } else {
      assert x in Lowest(ids - {least}, n - 1);
      LowestFirst(ids - {least}, n - 1, x, y);
    }
  }

  /** The rows a delete may take: for records, only those no file row refers to. */
  function Deletable(store: Store, name: Name, versions: set<string>): set<Id> {
    if name == Records then Retired(store.records, versions) - Referenced(store.recordFiles)
    else Retired(store.At(name), versions)
  }

  /** A table after one bounded delete among the given rows. */
  function Trim(table: Table, ids: set<Id>, batch: nat): Table {
    table - Lowest(ids, batch)
  }

  /** One applied pass: records lose only rows that no remaining file row refers to. */
  function Pass(store: Store, versions: set<string>, batch: nat): Store {
    var files := Trim(store.recordFiles, Retired(store.recordFiles, versions), batch);
    Store(
      Trim(store.currentFiles, Retired(store.currentFiles, versions), batch),
      files,
      Trim(store.records, Retired(store.records, versions) - Referenced(files), batch),
      Trim(store.projections, Retired(store.projections, versions), batch))
  }

  lemma TrimSize(table: Table, ids: set<Id>, batch: nat)
    requires ids <= table.Keys
    ensures |Trim(table, ids, batch)| == |table| - |Lowest(ids, batch)|
  {
    var chosen := Lowest(ids, batch);
    assert (table - chosen).Keys == table.Keys - chosen;
  }

  // ---------------------------------------------------------------------------
  // The script
  // ---------------------------------------------------------------------------

  datatype Count = Count(eligible: nat, deleted: nat)

  datatype Outcome =
    | Report(counts: map<Name, Count>)
    | RetiredVersionsOnly     // no version given, or the current one among them
    | BatchOutOfRange

  /** The report counts the retired rows found and the rows each table really lost. */
  ghost predicate Honest(before: Store, after: Store, versions: set<string>, name: Name, count: Count) {
    && count.eligible == |Retired(before.At(name), versions)|
    && count.deleted == |before.At(name)| - |after.At(name)|
  }

  ghost predicate Entered(counts: map<Name, Count>, before: Store, after: Store, versions: set<string>, name: Name) {
    name in counts && Honest(before, after, versions, name, counts[name])
  }

  ghost predicate EnteredUpTo(counts: map<Name, Count>, before: Store, after: Store, versions: set<string>, i: nat) {
    i <= |TABLES| && forall k :: 0 <= k < i ==> Entered(counts, before, after, versions, TABLES[k])
  }

  lemma EnterNext(counts: map<Name, Count>, before: Store, after: Store, versions: set<string>, i: nat, count: Count)
    requires EnteredUpTo(counts, before, after, versions, i) && i < |TABLES|
    requires Honest(before, after, versions, TABLES[i], count)
    ensures EnteredUpTo(counts[TABLES[i] := count], before, after, versions, i + 1)
  {
    forall k | 0 <= k < i ensures Entered(counts[TABLES[i] := count], before, after, versions, TABLES[k]) {
      assert Entered(counts, before, after, versions, TABLES[k]);
    }
  }

  lemma EnteredAll(counts: map<Name, Count>, before: Store, after: Store, versions: set<string>)
    requires EnteredUpTo(counts, before, after, versions, |TABLES|)
    ensures forall name :: Entered(counts, before, after, versions, name)
  {
    forall name ensures Entered(counts, before, after, versions, name) {
      assert Entered(counts, before, after, versions, TABLES[Place(name)]);
    }
  }

  class Database {
    var store: Store

    constructor (store: Store)
      ensures this.store == store
    {
      this.store := store;
    }

    method Cleanup(versions: set<string>, current: string, apply: bool, batchSize: int) returns (outcome: Outcome)
      modifies this
      ensures versions == {} || current in versions <==> outcome == RetiredVersionsOnly
      ensures outcome == BatchOutOfRange <==> !(versions == {} || current in versions) && !(1 <= batchSize <= 1000)
      ensures store == if outcome.Report? && apply then Pass(old(store), versions, batchSize) else old(store)
      ensures outcome.Report? ==>
                forall name :: Entered(outcome.counts, old(store), store, versions, name)
    {
      if versions == {} || current in versions {
        return RetiredVersionsOnly;
      }
      if !(1 <= batchSize <= 1000) {
        return BatchOutOfRange;
      }
      var result: map<Name, Count> := map[];
      ghost var before := store;
      ghost var after := if apply then Pass(store, versions, batchSize) else store;
      for i := 0 to |TABLES|
        invariant Reached(before, after, store, i)
        invariant EnteredUpTo(result, before, after, versions, i)
      {
        var model := TABLES[i];
        ReachedNext(before, after, store, i);
        if apply {
          NextTable(before, store, versions, batchSize, i);
        }
        var count := VisitTable(model, versions, apply, batchSize);
        EnterNext(result, before, after, versions, i, count);
        result := result[model := count];
      }
      EnteredAll(result, before, after, versions);
      outcome := Report(result);
    }

    /** Counting one table and, when applying, deleting a batch from it. */
    method VisitTable(model: Name, versions: set<string>, apply: bool, batch: nat) returns (count: Count)
      modifies this
      ensures count.eligible == |Retired(old(store.At(model)), versions)|
      ensures count.deleted == |old(store.At(model))| - |store.At(model)|
      ensures store == old(store).With(model,
                if apply then Trim(old(store.At(model)), Deletable(old(store), model, versions), batch) else old(store.At(model)))
    {
      var eligible := |Retired(store.At(model), versions)|;
      var deleted := 0;
      if apply {
        deleted := DeleteBatch(model, versions, batch);
      }
      count := Count(eligible, deleted);
    }

    /** One `DELETE … WHERE key IN (SELECT … ORDER BY key LIMIT batch)`. */
    method DeleteBatch(model: Name, versions: set<string>, batch: nat) returns (deleted: nat)
      modifies this
      ensures store == old(store).With(model, Trim(old(store.At(model)), Deletable(old(store), model, versions), batch))
      ensures deleted == |old(store.At(model))| - |store.At(model)|
    {
      var table := store.At(model);
      var ids := Retired(table, versions);
      if model == Records {
        ids := ids - Referenced(store.recordFiles);
      }
      var chosen := Lowest(ids, batch);
      TrimSize(table, ids, batch);
      store := store.With(model, table - chosen);
      deleted := |chosen|;
    }
  }

  function Place(name: Name): (k: nat)
    ensures k < |TABLES| && TABLES[k] == name
  {
    match name
    case CurrentFiles => 0
    case RecordFiles => 1
    case Records => 2
    case Projections => 3
  }

  /** The first `i` tables are as after the pass, the others as before it. */
  ghost predicate Reached(before: Store, after: Store, store: Store, i: nat) {
    && store.currentFiles == (if i > 0 then after else before).currentFiles
    && store.recordFiles == (if i > 1 then after else before).recordFiles
    && store.records == (if i > 2 then after else before).records
    && store.projections == (if i > 3 then after else before).projections
  }

  /** Deleting from table `i` next brings it to where the pass leaves it. */
  lemma NextTable(before: Store, store: Store, versions: set<string>, batch: nat, i: nat)
    requires i < |TABLES| && Reached(before, Pass(before, versions, batch), store, i)
    ensures Trim(store.At(TABLES[i]), Deletable(store, TABLES[i], versions), batch) == Pass(before, versions, batch).At(TABLES[i])
  {
  }

  lemma ReachedNext(before: Store, after: Store, store: Store, i: nat)
    requires i < |TABLES| && Reached(before, after, store, i)
    ensures Reached(before, after, store.With(TABLES[i], after.At(TABLES[i])), i + 1)
    ensures store.At(TABLES[i]) == before.At(TABLES[i])
  {
  }

  // ---------------------------------------------------------------------------
  // One pass
  // ---------------------------------------------------------------------------

  /** Every file row's record exists. */
  ghost predicate Integrity(store: Store) {
    Referenced(store.recordFiles) <= store.records.Keys
  }

  /** The table keeps its rows but for at most `batch` of them, all of a named version. */
  ghost predicate Shrinks(before: Table, after: Table, versions: set<string>, batch: nat) {
    && after.Keys <= before.Keys
    && (forall id :: id in after ==> after[id] == before[id])
    && before.Keys - after.Keys <= Retired(before, versions)
    && |before.Keys - after.Keys| <= batch
  }

  lemma TrimShrinks(table: Table, ids: set<Id>, versions: set<string>, batch: nat)
    requires ids <= Retired(table, versions)
    ensures Shrinks(table, Trim(table, ids, batch), versions, batch)
    ensures table.Keys - Trim(table, ids, batch).Keys == Lowest(ids, batch)
  {
    assert table.Keys - Trim(table, ids, batch).Keys == Lowest(ids, batch);
  }

  /** A pass is bounded, touches only named versions, and never removes a record that a file row still refers to. */
  lemma PassIsBounded(store: Store, versions: set<string>, batch: nat, name: Name)
    ensures Shrinks(store.At(name), Pass(store, versions, batch).At(name), versions, batch)
    ensures var after := Pass(store, versions, batch);
            (store.records.Keys - after.records.Keys) * Referenced(after.recordFiles) == {}
    ensures Integrity(store) ==> Integrity(Pass(store, versions, batch))
  {
    var after := Pass(store, versions, batch);
    TrimShrinks(store.currentFiles, Retired(store.currentFiles, versions), versions, batch);
    TrimShrinks(store.recordFiles, Retired(store.recordFiles, versions), versions, batch);
    TrimShrinks(store.records, Retired(store.records, versions) - Referenced(after.recordFiles), versions, batch);
    TrimShrinks(store.projections, Retired(store.projections, versions), versions, batch);
    assert Referenced(after.recordFiles) <= Referenced(store.recordFiles);
  }

  // ---------------------------------------------------------------------------
  // Repeated passes
  // ---------------------------------------------------------------------------

  /** The store before the first of some consecutive passes, and after each of them. */
  ghost predicate IsRun(stores: seq<Store>, versions: set<string>, batch: nat) {
    stores != [] && forall k :: 0 <= k < |stores| - 1 ==> IsPass(stores[k], stores[k + 1], versions, batch)
  }

  ghost predicate IsPass(before: Store, after: Store, versions: set<string>, batch: nat) {
    after == Pass(before, versions, batch)
  }

  function Kept(table: Table, versions: set<string>): Table {
    table - Retired(table, versions)
  }

  /** Retired records that no file row of an unnamed version refers to. */
  function Doomed(store: Store, versions: set<string>): set<Id> {
    Retired(store.records, versions) - Referenced(Kept(store.recordFiles, versions))
  }

  /** What cleaning can reach: exactly the retired rows go, but for records that surviving files hold on to. */
  function Limit(store: Store, versions: set<string>): Store {
    Store(
      Kept(store.currentFiles, versions),
      Kept(store.recordFiles, versions),
      store.records - Doomed(store, versions),
      Kept(store.projections, versions))
  }

  /** What is left of `n` items after a batch is gone. */
  function Less(n: nat, batch: nat): nat {
    if n < batch then 0 else n - batch
  }

  lemma LowestLeaves(ids: set<Id>, all: set<Id>, batch: nat)
    requires ids <= all
    ensures |all - Lowest(ids, batch)| == |all| - |Lowest(ids, batch)|
  {
  }

  lemma TrimRetired(table: Table, ids: set<Id>, versions: set<string>, batch: nat)
    ensures Retired(Trim(table, ids, batch), versions) == Retired(table, versions) - Lowest(ids, batch)
  {
  }

  lemma TrimKeeps(table: Table, versions: set<string>, batch: nat)
    ensures var after := Trim(table, Retired(table, versions), batch);
            && Kept(after, versions) == Kept(table, versions)
            && |Retired(after, versions)| == Less(|Retired(table, versions)|, batch)
  {
    var all := Retired(table, versions);
    var after := Trim(table, all, batch);
    TrimRetired(table, all, versions, batch);
    LowestLeaves(all, all, batch);
    assert Kept(after, versions).Keys == Kept(table, versions).Keys;
  }

  lemma KeptFiles(files: Table, versions: set<string>)
    ensures Referenced(Kept(files, versions)) <= Referenced(files)
    ensures Retired(files, versions) == {} ==> Kept(files, versions) == files
  {
  }

  /** The records one pass may take, after its delete of file rows. */
  function Free(store: Store, versions: set<string>, batch: nat): set<Id> {
    Retired(store.records, versions) - Referenced(Pass(store, versions, batch).recordFiles)
  }

  lemma FreeIsDoomed(store: Store, versions: set<string>, batch: nat)
    ensures Free(store, versions, batch) <= Doomed(store, versions)
    ensures Retired(store.recordFiles, versions) == {} ==> Free(store, versions, batch) == Doomed(store, versions)
  {
    var files := Pass(store, versions, batch).recordFiles;
    TrimKeeps(store.recordFiles, versions, batch);
    KeptFiles(files, versions);
    KeptFiles(store.recordFiles, versions);
    if Retired(store.recordFiles, versions) == {} {
      assert files == store.recordFiles;
    }
  }

  lemma DoomedAfter(store: Store, versions: set<string>, batch: nat)
    ensures Doomed(Pass(store, versions, batch), versions) == Doomed(store, versions) - Lowest(Free(store, versions, batch), batch)
  {
    TrimKeeps(store.recordFiles, versions, batch);
    TrimRetired(store.records, Free(store, versions, batch), versions, batch);
  }

  /** A pass takes only doomed records, and a full batch of them once no retired file is left. */
  lemma PassDoomed(store: Store, versions: set<string>, batch: nat)
    ensures var after := Pass(store, versions, batch);
            && |Doomed(after, versions)| <= |Doomed(store, versions)|
            && (Retired(store.recordFiles, versions) == {} ==>
                  |Doomed(after, versions)| == Less(|Doomed(store, versions)|, batch))
  {
    FreeIsDoomed(store, versions, batch);
    DoomedAfter(store, versions, batch);
    LowestLeaves(Free(store, versions, batch), Doomed(store, versions), batch);
  }

  lemma PassKeepsRecordLimit(store: Store, versions: set<string>, batch: nat)
    ensures Limit(Pass(store, versions, batch), versions).records == Limit(store, versions).records
  {
    var gone := Lowest(Free(store, versions, batch), batch);
    FreeIsDoomed(store, versions, batch);
    DoomedAfter(store, versions, batch);
    assert gone <= Doomed(store, versions);
    RemoveInTwo(store.records, gone, Doomed(store, versions));
  }

  lemma RemoveInTwo(table: Table, a: set<Id>, b: set<Id>)
    requires a <= b
    ensures (table - a) - (b - a) == table - b
  {
    assert ((table - a) - (b - a)).Keys == (table - b).Keys;
  }

  lemma PassKeepsLimit(store: Store, versions: set<string>, batch: nat)
    ensures Limit(Pass(store, versions, batch), versions) == Limit(store, versions)
  {
    TrimKeeps(store.currentFiles, versions, batch);
    TrimKeeps(store.recordFiles, versions, batch);
    TrimKeeps(store.projections, versions, batch);
    PassKeepsRecordLimit(store, versions, batch);
  }

  /** The passes that suffice for every table. */
  ghost predicate Suffices(store: Store, versions: set<string>, batch: nat, n: nat)
    requires batch > 0
  {
    && CeilDiv(|Retired(store.currentFiles, versions)|, batch) <= n
    && CeilDiv(|Retired(store.projections, versions)|, batch) <= n
    && CeilDiv(|Retired(store.recordFiles, versions)|, batch) + CeilDiv(|Doomed(store, versions)|, batch) <= n
  }

  lemma CountProgress(files: nat, doomed: nat, doomedAfter: nat, batch: nat, n: nat)
    requires batch > 0 && n > 0 && CeilDiv(files, batch) + CeilDiv(doomed, batch) <= n && doomedAfter <= doomed
    requires files == 0 ==> doomedAfter == Less(doomed, batch)
    ensures CeilDiv(Less(files, batch), batch) + CeilDiv(doomedAfter, batch) <= n - 1
  {
    CeilDivStep(files, batch);
    CeilDivStep(doomed, batch);
    CeilDivMonotone(doomedAfter, doomed, batch);
  }

  lemma PassProgress(store: Store, versions: set<string>, batch: nat, n: nat)
    requires batch > 0 && n > 0 && Suffices(store, versions, batch, n)
    ensures Suffices(Pass(store, versions, batch), versions, batch, n - 1)
  {
    TrimKeeps(store.currentFiles, versions, batch);
    TrimKeeps(store.recordFiles, versions, batch);
    TrimKeeps(store.projections, versions, batch);
    PassDoomed(store, versions, batch);
    CeilDivStep(|Retired(store.currentFiles, versions)|, batch);
    CeilDivStep(|Retired(store.projections, versions)|, batch);
    var doomedAfter := |Doomed(Pass(store, versions, batch), versions)|;
    CountProgress(|Retired(store.recordFiles, versions)|, |Doomed(store, versions)|, doomedAfter, batch, n);
  }

  lemma NothingLeft(store: Store, versions: set<string>, batch: nat)
    requires batch > 0 && Suffices(store, versions, batch, 0)
    ensures Limit(store, versions) == store
  {
    assert Retired(store.currentFiles, versions) == {} && Retired(store.recordFiles, versions) == {};
    assert Doomed(store, versions) == {} && Retired(store.projections, versions) == {};
  }

  lemma PassStep(before: Store, after: Store, versions: set<string>, batch: nat, n: nat)
    requires batch > 0 && n > 0 && Suffices(before, versions, batch, n) && IsPass(before, after, versions, batch)
    ensures Suffices(after, versions, batch, n - 1) && Limit(after, versions) == Limit(before, versions)
  {
    PassProgress(before, versions, batch, n);
    PassKeepsLimit(before, versions, batch);
  }

  /** Enough passes reach the limit exactly, whatever the rows refer to. */
  lemma {:induction false} PassesReachLimit(stores: seq<Store>, versions: set<string>, batch: nat)
    requires batch > 0 && IsRun(stores, versions, batch) && Suffices(stores[0], versions, batch, |stores| - 1)
    ensures stores[|stores| - 1] == Limit(stores[0], versions)
    decreases |stores|
  {
    if |stores| == 1 {
      NothingLeft(stores[0], versions, batch);
    } else {
      assert IsPass(stores[0], stores[1], versions, batch);
      PassStep(stores[0], stores[1], versions, batch, |stores| - 1);
      var rest := stores[1..];
      forall k | 0 <= k < |rest| - 1 ensures IsPass(rest[k], rest[k + 1], versions, batch) {
        assert IsPass(stores[k + 1], stores[k + 1 + 1], versions, batch);
      }
      PassesReachLimit(rest, versions, batch);
    }
  }

  /** File rows carry the version of their record. */
  ghost predicate VersionsAgree(store: Store) {
    forall f :: f in store.recordFiles && store.recordFiles[f].record.Some? && store.recordFiles[f].record.value in store.records
            ==> store.recordFiles[f].version == store.records[store.recordFiles[f].record.value].version
  }

  /** A retired record survives every cleanup exactly when a file row of an unnamed version refers to it. */
  lemma RetiredRecordsClearIff(store: Store, versions: set<string>, id: Id)
    requires id in Retired(store.records, versions)
    ensures id in Limit(store, versions).records
       <==> exists f :: f in store.recordFiles && store.recordFiles[f].version !in versions && store.recordFiles[f].record == Some(id)
  {
    var kept := Kept(store.recordFiles, versions);
    if f :| f in store.recordFiles && store.recordFiles[f].version !in versions && store.recordFiles[f].record == Some(id) {
      assert f in kept;
    }
  }

  /** File row `f` of an unnamed version refers to record `id`. */
  ghost predicate Holds(store: Store, versions: set<string>, f: Id, id: Id) {
    && id in store.records
    && f in store.recordFiles && store.recordFiles[f].version !in versions && store.recordFiles[f].record == Some(id)
  }

  lemma PassKeepsHeld(store: Store, versions: set<string>, batch: nat, f: Id, id: Id)
    requires Holds(store, versions, f, id)
    ensures Holds(Pass(store, versions, batch), versions, f, id)
  {
    var after := Pass(store, versions, batch);
    PassIsBounded(store, versions, batch, RecordFiles);
    PassIsBounded(store, versions, batch, Records);
    assert f !in Retired(store.recordFiles, versions);
    assert f in after.recordFiles && id in Referenced(after.recordFiles);
  }

  /** However often the cleanup is repeated, such a record stays. */
  lemma {:induction false} HeldRecordStays(stores: seq<Store>, versions: set<string>, batch: nat, f: Id, id: Id, k: nat)
    requires IsRun(stores, versions, batch) && k < |stores| && Holds(stores[0], versions, f, id)
    ensures Holds(stores[k], versions, f, id)
  {
    if k > 0 {
      HeldRecordStays(stores, versions, batch, f, id, k - 1);
      assert IsPass(stores[k - 1], stores[k - 1 + 1], versions, batch);
      PassKeepsHeld(stores[k - 1], versions, batch, f, id);
    }
  }

  /** A file row that still has the column's default version, the empty string, keeps its retired record for ever. */
  lemma DefaultVersionKeepsRecord(stores: seq<Store>, batch: nat, k: nat)
    requires IsRun(stores, {"work-1"}, batch) && k < |stores|
    requires stores[0] == Store(map[], map[7 := Row("", Some(3))], map[3 := Row("work-1", None)], map[])
    ensures 3 in Retired(stores[0].records, {"work-1"}) && 3 in stores[k].records
  {
    assert Holds(stores[0], {"work-1"}, 7, 3);
    HeldRecordStays(stores, {"work-1"}, batch, 7, 3, k);
  }

  lemma AgreeingRecordsAreDoomed(store: Store, versions: set<string>)
    requires VersionsAgree(store)
    ensures Doomed(store, versions) == Retired(store.records, versions)
  {
    forall id | id in Retired(store.records, versions) ensures id in Doomed(store, versions) {
      RetiredRecordsClearIff(store, versions, id);
    }
  }

  /** With agreeing versions every retired row of every table is gone after ceil(F/b) + ceil(R/b) passes (and ceil(C/b), ceil(P/b)). */
  lemma AgreeingVersionsClear(stores: seq<Store>, versions: set<string>, batch: nat, name: Name)
    requires batch > 0 && IsRun(stores, versions, batch) && VersionsAgree(stores[0])
    requires CeilDiv(|Retired(stores[0].currentFiles, versions)|, batch) <= |stores| - 1
    requires CeilDiv(|Retired(stores[0].projections, versions)|, batch) <= |stores| - 1
    requires CeilDiv(|Retired(stores[0].recordFiles, versions)|, batch) + CeilDiv(|Retired(stores[0].records, versions)|, batch) <= |stores| - 1
    ensures stores[|stores| - 1].At(name) == Kept(stores[0].At(name), versions)
  {
    AgreeingRecordsAreDoomed(stores[0], versions);
    PassesReachLimit(stores, versions, batch);
  }
}
