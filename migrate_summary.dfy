/**
 * What the summary of `run` says about each table, and the order of its
 * PocketBase requests, as properties of the table loop's specification.
 */
module MigrateSummary {
  import opened Wrappers
  import opened Js
  import opened Stores
  import Decimal
  import opened MigrateMappers
  import opened Migrate
  import opened MigrateRun

  /** `m[k]`, or nothing when `k` is absent. */
  function Lookup<V>(m: map<string, V>, k: string): Option<V> {
    if k in m then Some(m[k]) else None
  }

  /** A fresh entry when there is one, else the previous value. */
  function Over<V>(latest: Option<V>, previous: Option<V>): Option<V> {
    if latest.Some? then latest else previous
  }

  /** The `summary.imported` entry the branch of `step` writes, judged by that table alone. */
  function ImportedEntry(ctx: Context, step: TableStep): Option<nat> {
    match TableId(ctx, step.table)
    case None => None
    case Some(id) => if id in ctx.rows then ImportedCount(ctx.host, step.table, TableRows(ctx, id)) else None
  }

  /** The `summary.skipped` entry the branch of `step` writes, judged by that table alone. */
  function SkippedEntry(ctx: Context, step: TableStep): Option<string> {
    match TableId(ctx, step.table)
    case None => Some("missing table")
    case Some(id) => if id in ctx.rows then SkipNote(ctx.host, step.table, TableRows(ctx, id)) else None
  }

  /** How many weight rows the branch of `step` handles. */
  function WeightRowsOf(ctx: Context, step: TableStep): nat {
    match TableId(ctx, step.table)
    case None => 0
    case Some(id) =>
      if id in ctx.rows && step.table == "WeightRecords" then |MapWeightRecords(ctx.host, TableRows(ctx, id))| else 0
  }

  function WeightRowsTotal(ctx: Context, steps: seq<TableStep>): nat {
    if steps == [] then 0 else WeightRowsTotal(ctx, steps[..|steps| - 1]) + WeightRowsOf(ctx, steps[|steps| - 1])
  }

  lemma {:induction false} WeightRecordsLength(ctx: Context, pb: PocketBase, rows: seq<WeightRow>, next: nat)
    ensures |WeightRecords(ctx, pb, rows, next)| == |rows|
  {
    if rows != [] {
      WeightRecordsLength(ctx, pb, rows[..|rows| - 1], next);
    }
  }

  lemma {:induction false} OutcomesLength(ctx: Context, pb: PocketBase, rows: seq<WeightRow>)
    ensures |WeightOutcomes(ctx, pb, rows)| == |rows|
  {
    if rows != [] {
      OutcomesLength(ctx, pb, rows[..|rows| - 1]);
    }
  }

  // ------------------------------------------------------------- one table

  /**
   * One table's branch writes the entries of its own collection and no
   * other, never touches `deleted` nor the set of collections, and records
   * each weight photo at most once.
   */
  lemma StepEffect(ctx: Context, pb: PocketBase, step: TableStep, t: Tables, k: string)
    ensures var u := StepAfter(ctx, pb, step, t);
      && u.summary.deleted == t.summary.deleted
      && u.coll.Keys == t.coll.Keys
      && Lookup(u.summary.imported, step.collection) == Over(ImportedEntry(ctx, step), Lookup(t.summary.imported, step.collection))
      && Lookup(u.summary.skipped, step.collection) == Over(SkippedEntry(ctx, step), Lookup(t.summary.skipped, step.collection))
      && (k != step.collection ==>
            && Lookup(u.summary.imported, k) == Lookup(t.summary.imported, k)
            && Lookup(u.summary.skipped, k) == Lookup(t.summary.skipped, k)
            && Lookup(u.coll, k) == Lookup(t.coll, k))
      && t.summary.uploaded <= u.summary.uploaded && t.summary.failed <= u.summary.failed
      && u.summary.uploaded + u.summary.failed <= t.summary.uploaded + t.summary.failed + WeightRowsOf(ctx, step)
  {
    match TableId(ctx, step.table)
    case None =>
    case Some(id) =>
      if id in ctx.rows && step.table == "WeightRecords" {
        var o := WeightOutcomes(ctx, pb, MapWeightRecords(ctx.host, TableRows(ctx, id)));
        CountsBounded(o);
        OutcomesLength(ctx, pb, MapWeightRecords(ctx.host, TableRows(ctx, id)));
      }
  }

  /**
   * A table of the mapping imports as many rows as its branch adds to its
   * collection, whatever happens to the photos of weight records.
   */
  lemma ImportedMatchesCreated(ctx: Context, pb: PocketBase, step: TableStep, t: Tables)
    requires ImportedEntry(ctx, step).Some? && step.collection in t.coll
    ensures var u := StepAfter(ctx, pb, step, t);
      |u.coll[step.collection]| == |t.coll[step.collection]| + ImportedEntry(ctx, step).value
  {
    var id := TableId(ctx, step.table).value;
    if step.table == "WeightRecords" {
      WeightRecordsLength(ctx, pb, MapWeightRecords(ctx.host, TableRows(ctx, id)), t.next);
    }
  }

  /** A table without an id is noted as missing, imports nothing and does not stop the loop. */
  lemma MissingTable(ctx: Context, pb: PocketBase, step: TableStep, keys: set<string>, t: Tables)
    requires TableId(ctx, step.table).None?
    ensures ImportedEntry(ctx, step).None? && SkippedEntry(ctx, step) == Some("missing table")
    ensures StepSucceeds(ctx, pb, step, keys)
    ensures var u := StepAfter(ctx, pb, step, t); u.coll == t.coll && u.next == t.next
  {
  }

  /**
   * `Users` creates only its first mapped row, so it imports 0 or 1; with
   * more than one row the note names how many rows there were.
   */
  lemma UsersEntry(ctx: Context, step: TableStep, id: string)
    requires step.table == "Users" && TableId(ctx, step.table) == Some(id) && id in ctx.rows
    ensures var n := |ctx.rows[id]|; var e := ImportedEntry(ctx, step);
      && e.Some? && e.value <= 1 && (e.value == 1 <==> n > 0)
      && StepPayloads(ctx.host, step.table, TableRows(ctx, id)) == MapUsers(ctx.host, TableRows(ctx, id))[..e.value]
      && (SkippedEntry(ctx, step).Some? <==> n > 1)
      && (n > 1 ==> SkippedEntry(ctx, step).value == "only first row imported from " + Decimal.NatToString(n) + " rows")
  {
  }

  /** `WeightRecords` imports every mapped row and skips none. */
  lemma WeightsEntry(ctx: Context, step: TableStep, id: string)
    requires step.table == "WeightRecords" && TableId(ctx, step.table) == Some(id) && id in ctx.rows
    ensures ImportedEntry(ctx, step) == Some(|MapWeightRecords(ctx.host, TableRows(ctx, id))|)
    ensures ImportedEntry(ctx, step).value == WeightRowsOf(ctx, step)
    ensures SkippedEntry(ctx, step).None?
  {
  }

  // ------------------------------------------------------------- all tables

  lemma {:induction false} StepsEffect(ctx: Context, pb: PocketBase, steps: seq<TableStep>, t: Tables, k: string)
    ensures var u := StepsAfter(ctx, pb, steps, t);
      && u.summary.deleted == t.summary.deleted
      && u.coll.Keys == t.coll.Keys
      && u.summary.uploaded + u.summary.failed <= t.summary.uploaded + t.summary.failed + WeightRowsTotal(ctx, steps)
      && (k !in Collections(steps) ==>
            && Lookup(u.summary.imported, k) == Lookup(t.summary.imported, k)
            && Lookup(u.summary.skipped, k) == Lookup(t.summary.skipped, k)
            && Lookup(u.coll, k) == Lookup(t.coll, k))
  {
    if steps != [] {
      var n := |steps| - 1;
      assert Collections(steps) == Collections(steps[..n]) + [steps[n].collection];
      StepsEffect(ctx, pb, steps[..n], t, k);
      StepEffect(ctx, pb, steps[n], StepsAfter(ctx, pb, steps[..n], t), k);
    }
  }

  /**
   * With distinct collections, the summary entries of each table's
   * collection are the ones its own branch writes.
   */
  lemma {:induction false} StepsEntry(ctx: Context, pb: PocketBase, steps: seq<TableStep>, t: Tables, j: nat)
    requires Distinct(Collections(steps)) && j < |steps|
    ensures var u := StepsAfter(ctx, pb, steps, t); var c := steps[j].collection;
      && Lookup(u.summary.imported, c) == Over(ImportedEntry(ctx, steps[j]), Lookup(t.summary.imported, c))
      && Lookup(u.summary.skipped, c) == Over(SkippedEntry(ctx, steps[j]), Lookup(t.summary.skipped, c))
  {
    var n := |steps| - 1;
    var init := steps[..n];
    var c := steps[j].collection;
    assert Collections(steps) == Collections(init) + [steps[n].collection];
    var before := StepsAfter(ctx, pb, init, t);
    if j == n {
      assert c !in Collections(init);
      StepsEffect(ctx, pb, init, t, c);
      StepEffect(ctx, pb, steps[n], before, c);
    } else {
      assert Collections(steps)[j] != Collections(steps)[n];
      assert Distinct(Collections(init)) by {
        forall a, b | 0 <= a < b < |Collections(init)| ensures Collections(init)[a] != Collections(init)[b] {
          assert Collections(init)[a] == Collections(steps)[a] && Collections(init)[b] == Collections(steps)[b];
        }
      }
      assert init[j] == steps[j];
      StepsEntry(ctx, pb, init, t, j);
      StepEffect(ctx, pb, steps[n], before, c);
    }
  }

  lemma MappingCollections()
    ensures Collections(Mapping) == ["user_targets", "food_library", "food_records", "water_records", "exercise_records", "weight_records"]
  {
  }

  lemma MappingDistinct()
    ensures Distinct(Collections(Mapping))
  {
    ClearOrderValues();
  }

  lemma ReversedHas<T>(s: seq<T>, x: T)
    ensures x in Reversed(s) <==> x in s
  {
    if x in s {
      var i :| 0 <= i < |s| && s[i] == x;
      assert Reversed(s)[|s| - 1 - i] == x;
    }
  }

  /**
   * The summary of a whole run: `deleted` holds the sizes the six
   * collections had; each table's `imported` and `skipped` entries are the
   * ones its own branch writes and no other key appears; collections outside
   * the mapping are left as they were; and no weight photo is counted twice.
   */
  lemma RunSummary(ctx: Context, pb: PocketBase, coll: map<string, seq<PbRecord>>, next: nat)
    ensures var u := StepsAfter(ctx, pb, Mapping, Start(coll, next));
      && u.summary.deleted == DeletedCounts(coll, ClearOrder)
      && u.coll.Keys == coll.Keys
      && u.summary.uploaded + u.summary.failed <= WeightRowsTotal(ctx, Mapping)
      && (forall j :: 0 <= j < |Mapping| ==>
            && Lookup(u.summary.imported, Mapping[j].collection) == ImportedEntry(ctx, Mapping[j])
            && Lookup(u.summary.skipped, Mapping[j].collection) == SkippedEntry(ctx, Mapping[j]))
      && (forall k :: k !in Collections(Mapping) ==>
            && k !in u.summary.imported && k !in u.summary.skipped
            && Lookup(u.coll, k) == Lookup(coll, k))
  {
    MappingDistinct();
    StepsSummary(ctx, pb, Mapping, coll, next);
  }

  /** `RunSummary` for any table loop over distinct collections, started from `Start`. */
  lemma StepsSummary(ctx: Context, pb: PocketBase, steps: seq<TableStep>, coll: map<string, seq<PbRecord>>, next: nat)
    requires Distinct(Collections(steps))
    ensures var u := StepsAfter(ctx, pb, steps, Start(coll, next));
      && u.summary.deleted == DeletedCounts(coll, ClearOrder)
      && u.coll.Keys == coll.Keys
      && u.summary.uploaded + u.summary.failed <= WeightRowsTotal(ctx, steps)
      && (forall j :: 0 <= j < |steps| ==>
            && Lookup(u.summary.imported, steps[j].collection) == ImportedEntry(ctx, steps[j])
            && Lookup(u.summary.skipped, steps[j].collection) == SkippedEntry(ctx, steps[j]))
      && (forall k :: k !in Collections(steps) && k !in ClearOrder ==>
            && k !in u.summary.imported && k !in u.summary.skipped
            && Lookup(u.coll, k) == Lookup(coll, k))
  {
    var start := Start(coll, next);
    var u := StepsAfter(ctx, pb, steps, start);
    StepsEffect(ctx, pb, steps, start, "");
    forall j | 0 <= j < |steps|
      ensures Lookup(u.summary.imported, steps[j].collection) == ImportedEntry(ctx, steps[j])
      ensures Lookup(u.summary.skipped, steps[j].collection) == SkippedEntry(ctx, steps[j])
    {
      StepsEntry(ctx, pb, steps, start, j);
    }
    forall k | k !in Collections(steps) && k !in ClearOrder
      ensures k !in u.summary.imported && k !in u.summary.skipped && Lookup(u.coll, k) == Lookup(coll, k)
    {
      StepsEffect(ctx, pb, steps, start, k);
    }
  }

  // ------------------------------------------------------------- ordering

  /**
   * In a trace made of logins, then listings and deletes, then creates and
   * uploads, every login precedes every other request and every delete
   * precedes every create and upload.
   */
  lemma ClearsBeforeWrites(auth: seq<PbCall>, clears: seq<PbCall>, writes: seq<PbCall>)
    requires OnlyAuth(auth) && OnlyClears(clears) && OnlyWrites(writes)
    ensures var calls := auth + clears + writes;
      forall i, j :: 0 <= i < |calls| && 0 <= j < |calls| ==>
        && (calls[i].AuthCall? && !calls[j].AuthCall? ==> i < j)
        && (calls[i].DeleteCall? && (calls[j].CreateCall? || calls[j].UploadCall?) ==> i < j)
  {
    var calls := auth + clears + writes;
    forall i | 0 <= i < |calls|
      ensures i < |auth| <==> calls[i].AuthCall?
      ensures i < |auth| + |clears| <==> !(calls[i].CreateCall? || calls[i].UploadCall?)
    {
      if i < |auth| {
        assert calls[i] == auth[i];
      } else if i < |auth| + |clears| {
        assert calls[i] == clears[i - |auth|];
      } else {
        assert calls[i] == writes[i - |auth| - |clears|];
      }
    }
  }
}
