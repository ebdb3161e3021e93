/**
 * `run` in scripts/migrate-nocodb-to-pocketbase.js: after configuration,
 * login and the NocoDB lookups, empty the six target collections in reverse
 * mapping order, then copy each mapped NocoDB table into its collection,
 * filling the summary (`imported`, `skipped`, `deleted` and the two photo
 * counters). Any error thrown ends the run.
 */
module MigrateRun {
  import opened Wrappers
  import opened Js
  import opened Stores
  import Seqs
  import Decimal
  import MigrateConfig
  import opened MigrateMappers
  import opened MigrateLoops
  import opened Migrate

  // ------------------------------------------------------------- clearing

  /** The order `run` empties the collections in: the mapping reversed. */
  const ClearOrder: seq<string> := Reversed(Collections(Mapping))

  lemma ClearOrderValues()
    ensures ClearOrder == ["weight_records", "exercise_records", "water_records", "food_records", "food_library", "user_targets"]
    ensures Distinct(ClearOrder) && Distinct(Collections(Mapping))
  {
    assert Collections(Mapping) == ["user_targets", "food_library", "food_records", "water_records", "exercise_records", "weight_records"];
  }

  /** `m` with every collection of `names` emptied. */
  function ClearedMap(m: map<string, seq<PbRecord>>, names: seq<string>): map<string, seq<PbRecord>> {
    map k | k in m :: if k in names then [] else m[k]
  }

  /** `summary.deleted`: how many records each of `names` held. */
  function DeletedCounts(m: map<string, seq<PbRecord>>, names: seq<string>): map<string, nat> {
    map k | k in names && k in m :: |m[k]|
  }

  /** The requests of clearing `names` in order, each collection still holding its records of `m`. */
  function ClearAllCalls(m: map<string, seq<PbRecord>>, names: seq<string>): seq<PbCall> {
    if names == [] then []
    else
      var n := |names| - 1;
      ClearAllCalls(m, names[..n])
        + if names[n] in m then ClearCalls(names[n], Reversed(m[names[n]])) else [ListPageCall(names[n], 1, PbPageSize)]
  }

  /** Whether every request lists or deletes records. */
  predicate OnlyClears(calls: seq<PbCall>) {
    forall i :: 0 <= i < |calls| ==> calls[i].ListPageCall? || calls[i].DeleteCall?
  }

  lemma {:induction false} ClearAllCallsKinds(m: map<string, seq<PbRecord>>, names: seq<string>)
    ensures OnlyClears(ClearAllCalls(m, names))
  {
    if names != [] {
      var n := |names| - 1;
      ClearAllCallsKinds(m, names[..n]);
      if names[n] in m {
        ClearCallsKinds(names[n], Reversed(m[names[n]]));
      }
    }
  }

  /**
   * `coll`, `deleted` and `sent` as they are once the first `i` collections
   * of `ClearOrder` have been cleared, starting from collections `m`.
   */
  ghost predicate ClearedPrefix(m: map<string, seq<PbRecord>>, i: nat,
                                coll: map<string, seq<PbRecord>>, deleted: map<string, nat>, sent: seq<PbCall>)
  {
    && i <= |ClearOrder|
    && (forall j :: 0 <= j < i ==> ClearOrder[j] in m)
    && coll == ClearedMap(m, ClearOrder[..i])
    && deleted == DeletedCounts(m, ClearOrder[..i])
    && sent == ClearAllCalls(m, ClearOrder[..i])
  }

  /** Clearing the next collection, which still holds its records of `m`. */
  lemma ClearedNext(m: map<string, seq<PbRecord>>, i: nat,
                    coll: map<string, seq<PbRecord>>, deleted: map<string, nat>, sent: seq<PbCall>)
    requires i < |ClearOrder| && ClearedPrefix(m, i, coll, deleted, sent)
    requires ClearOrder[i] in m
    ensures var c := ClearOrder[i];
      && c in coll && coll[c] == m[c]
      && ClearedPrefix(m, i + 1, coll[c := []], deleted[c := |m[c]|], sent + ClearCalls(c, Reversed(m[c])))
  {
    assert ClearOrder[i] !in ClearOrder[..i] by {
      ClearOrderValues();
    }
    ClearAllStep(m, ClearOrder, i);
  }

  /** Reaching a collection that does not exist: it is missing from `m`, and one listing was sent for it. */
  lemma ClearStopped(m: map<string, seq<PbRecord>>, i: nat,
                     coll: map<string, seq<PbRecord>>, deleted: map<string, nat>, sent: seq<PbCall>)
    requires i < |ClearOrder| && ClearedPrefix(m, i, coll, deleted, sent)
    requires ClearOrder[i] !in coll
    ensures ClearOrder[i] !in m
    ensures sent + [ListPageCall(ClearOrder[i], 1, PbPageSize)] == ClearAllCalls(m, ClearOrder[..i + 1])
  {
    ClearedMapKeys(m, ClearOrder[..i]);
    ClearAllMissing(m, ClearOrder, i);
  }

  lemma ClearedMapKeys(m: map<string, seq<PbRecord>>, names: seq<string>)
    ensures ClearedMap(m, names).Keys == m.Keys
  {
  }

  /** A missing collection adds one listing to the requests, in terms of the prefixes of the names. */
  lemma ClearAllMissing(m: map<string, seq<PbRecord>>, names: seq<string>, i: nat)
    requires i < |names| && names[i] !in m
    ensures ClearAllCalls(m, names[..i + 1]) == ClearAllCalls(m, names[..i]) + [ListPageCall(names[i], 1, PbPageSize)]
  {
    assert names[..i + 1][..i] == names[..i];
  }

  /** One more collection cleared, in terms of the prefixes of the names. */
  lemma ClearAllStep(m: map<string, seq<PbRecord>>, names: seq<string>, i: nat)
    requires i < |names| && names[i] in m
    ensures ClearedMap(m, names[..i + 1]) == ClearedMap(m, names[..i])[names[i] := []]
    ensures DeletedCounts(m, names[..i + 1]) == DeletedCounts(m, names[..i])[names[i] := |m[names[i]]|]
    ensures ClearAllCalls(m, names[..i + 1]) == ClearAllCalls(m, names[..i]) + ClearCalls(names[i], Reversed(m[names[i]]))
  {
    assert names[..i + 1][..i] == names[..i];
    assert forall k :: k in names[..i + 1] <==> k in names[..i] || k == names[i];
  }

  /** After all of `ClearOrder`: every collection named there is empty, and its old size recorded. */
  lemma ClearedAll(m: map<string, seq<PbRecord>>, coll: map<string, seq<PbRecord>>, deleted: map<string, nat>, sent: seq<PbCall>)
    requires ClearedPrefix(m, |ClearOrder|, coll, deleted, sent)
    ensures forall k :: k in ClearOrder ==> k in m
    ensures coll == ClearedMap(m, ClearOrder) && deleted == DeletedCounts(m, ClearOrder)
    ensures sent == ClearAllCalls(m, ClearOrder)
  {
    assert ClearOrder[..|ClearOrder|] == ClearOrder;
  }

  /**
   * The first loop of `run`: `clearPocketBaseCollection` on each collection,
   * last mapping entry first, recording how many records each held. A
   * missing collection ends the run; the ones cleared before it stay empty.
   */
  method ClearAll(pb: PocketBase) returns (r: Result<map<string, nat>>, ghost sent: seq<PbCall>, ghost stop: nat)
    requires pb.Valid()
    modifies pb
    ensures pb.Valid() && pb.nextId == old(pb.nextId)
    ensures r.Success? ==> ClearedPrefix(old(pb.collections), |ClearOrder|, pb.collections, r.value, sent)
    ensures r.Failure? ==>
      && stop < |ClearOrder| && ClearOrder[stop] !in old(pb.collections)
      && pb.collections == ClearedMap(old(pb.collections), ClearOrder[..stop])
      && sent == ClearAllCalls(old(pb.collections), ClearOrder[..stop + 1])
    ensures pb.calls == old(pb.calls) + sent
  {
    ghost var m := pb.collections;
    ghost var c0 := pb.calls;
    assert ClearedMap(m, ClearOrder[..0]) == m;
    var deleted: map<string, nat> := map[];
    sent := [];
    for i := 0 to |ClearOrder|
      invariant pb.Valid() && pb.nextId == old(pb.nextId)
      invariant ClearedPrefix(m, i, pb.collections, deleted, sent)
      invariant pb.calls == c0 + sent
    {
      var c := ClearOrder[i];
      ghost var cur := pb.collections;
      var n := ClearCollection(pb, c);
      if n.Failure? {
        ClearStopped(m, i, cur, deleted, sent);
        Seqs.AppendAssoc(c0, sent, [ListPageCall(c, 1, PbPageSize)]);
        return Failure(n.error), sent + [ListPageCall(c, 1, PbPageSize)], i;
      }
      ClearedNext(m, i, cur, deleted, sent);
      ghost var more := ClearCalls(c, Reversed(m[c]));
      Seqs.AppendAssoc(c0, sent, more);
      deleted := deleted[c := n.value];
      sent := sent + more;
    }
    return Success(deleted), sent, 0;
  }

  // --------------------------------------------------------------- tables

  /** The `summary` object `run` fills and prints. */
  datatype Summary = Summary(
    imported: map<string, nat>, skipped: map<string, string>, deleted: map<string, nat>,
    uploaded: nat, failed: nat)

  /** What the table loop hands from one table to the next. */
  datatype Tables = Tables(coll: map<string, seq<PbRecord>>, next: nat, summary: Summary)

  /** `tableIdMap.get(table)`, when it is a non-empty id. */
  function TableId(ctx: Context, table: string): Option<string> {
    if table in ctx.tableIds && ctx.tableIds[table] != "" then Some(ctx.tableIds[table]) else None
  }

  /** What `listAllNocoRows` returns for a table whose rows exist. */
  function TableRows(ctx: Context, id: string): seq<Record>
    requires id in ctx.rows
  {
    Seqs.MapSeq(ctx.rows[id], RowRecord)
  }

  /** The tables whose branch creates every mapped row. */
  const PlainTables: set<string> := {"FoodLibrary", "FoodRecords", "WaterRecords", "ExerciseRecords"}

  /** The mapped rows of a table without photos. */
  function PlainMapped(host: Host, table: string, rows: seq<Record>): seq<Record> {
    if table == "Users" then MapUsers(host, rows)
    else if table == "FoodLibrary" then MapFoodLibrary(host, rows)
    else if table == "FoodRecords" then MapFoodRecords(host, rows)
    else if table == "WaterRecords" then MapWaterRecords(host, rows)
    else if table == "ExerciseRecords" then MapExerciseRecords(host, rows)
    else []
  }

  /** The payloads the branch of a table without photos creates: `Users` creates only its first row. */
  function PlainPayloads(host: Host, table: string, rows: seq<Record>): seq<Record> {
    var mapped := PlainMapped(host, table, rows);
    if table == "Users" then (if |mapped| > 0 then [mapped[0]] else []) else mapped
  }

  /** All the payloads the branch of `table` creates. */
  function StepPayloads(host: Host, table: string, rows: seq<Record>): seq<Record> {
    if table == "WeightRecords" then WeightPayloads(MapWeightRecords(host, rows)) else PlainPayloads(host, table, rows)
  }

  /** `summary.imported[collection]` for a listed table, when its branch sets it. */
  function ImportedCount(host: Host, table: string, rows: seq<Record>): Option<nat> {
    if table == "Users" then Some(if |MapUsers(host, rows)| > 0 then 1 else 0)
    else if table == "WeightRecords" then Some(|MapWeightRecords(host, rows)|)
    else if table in PlainTables then Some(|PlainMapped(host, table, rows)|)
    else None
  }

  /** `summary.skipped[collection]` for a listed table, when its branch sets it. */
  function SkipNote(host: Host, table: string, rows: seq<Record>): Option<string> {
    var n := |MapUsers(host, rows)|;
    if table == "Users" && n > 1 then Some("only first row imported from " + Decimal.NatToString(n) + " rows") else None
  }

  function Put<V>(m: map<string, V>, k: string, v: Option<V>): map<string, V> {
    if v.Some? then m[k := v.value] else m
  }

  /** Whether every create of a listed table's branch is accepted. */
  predicate ListedSucceeds(host: Host, pb: PocketBase, step: TableStep, rows: seq<Record>, keys: set<string>) {
    var payloads := StepPayloads(host, step.table, rows);
    payloads == [] || (step.collection in keys && AllAccepted(pb.accepts, step.collection, payloads))
  }

  /** The state after the branch of a listed table without photos. */
  function PlainAfter(host: Host, step: TableStep, rows: seq<Record>, t: Tables): Tables {
    var c := step.collection;
    var p := PlainPayloads(host, step.table, rows);
    Tables(Appended(t.coll, c, NewRecords(p, t.next)), t.next + |p|,
           t.summary.(imported := Put(t.summary.imported, c, ImportedCount(host, step.table, rows)),
                      skipped := Put(t.summary.skipped, c, SkipNote(host, step.table, rows))))
  }

  /** The state after the `WeightRecords` branch on the mapped rows `w`. */
  function WeightsAfter(ctx: Context, pb: PocketBase, c: string, w: seq<WeightRow>, t: Tables): Tables {
    var o := WeightOutcomes(ctx, pb, w);
    Tables(Appended(t.coll, c, WeightRecords(ctx, pb, w, t.next)), t.next + |w|,
           t.summary.(imported := t.summary.imported[c := |w|],
                      uploaded := t.summary.uploaded + Uploads(o), failed := t.summary.failed + Failures(o)))
  }

  /**
   * Whether migrating `step` goes through: a table without an id is skipped;
   * otherwise its rows must be listed and every create accepted.
   */
  predicate StepSucceeds(ctx: Context, pb: PocketBase, step: TableStep, keys: set<string>) {
    match TableId(ctx, step.table)
    case None => true
    case Some(id) => id in ctx.rows && ListedSucceeds(ctx.host, pb, step, TableRows(ctx, id), keys)
  }

  /** The state after migrating `step` when it goes through. */
  function StepAfter(ctx: Context, pb: PocketBase, step: TableStep, t: Tables): Tables {
    match TableId(ctx, step.table)
    case None => t.(summary := t.summary.(skipped := t.summary.skipped[step.collection := "missing table"]))
    case Some(id) =>
      if id !in ctx.rows then t
      else if step.table == "WeightRecords" then WeightsAfter(ctx, pb, step.collection, MapWeightRecords(ctx.host, TableRows(ctx, id)), t)
      else PlainAfter(ctx.host, step, TableRows(ctx, id), t)
  }

  /**
   * The branches of `run` for the tables without photos: create the mapped
   * rows (only the first for `Users`) and record the count, and for `Users`
   * with several rows, the note that only the first was imported.
   */
  method MigratePlain(pb: PocketBase, host: Host, step: TableStep, rows: seq<Record>, summary: Summary)
    returns (r: Result<Summary>, ghost sent: seq<PbCall>)
    requires pb.Valid() && step.table != "WeightRecords"
    modifies pb
    ensures pb.Valid()
    ensures pb.collections.Keys == old(pb.collections).Keys
    ensures r.Success? <==> ListedSucceeds(host, pb, step, rows, old(pb.collections).Keys)
    ensures r.Success? ==> var t := PlainAfter(host, step, rows, Tables(old(pb.collections), old(pb.nextId), summary));
      pb.collections == t.coll && pb.nextId == t.next && r.value == t.summary
    ensures pb.calls == old(pb.calls) + sent && OnlyWrites(sent)
  {
    var c := step.collection;
    var payloads := PlainPayloads(host, step.table, rows);
    var created;
    ghost var stop;
    created, sent, stop := CreateAll(pb, c, payloads);
    if created.Failure? {
      return Failure(created.error), sent;
    }
    var s := summary;
    if step.table == "Users" {
      var n := |MapUsers(host, rows)|;
      s := s.(imported := s.imported[c := if n > 0 then 1 else 0]);
      if n > 1 {
        s := s.(skipped := s.skipped[c := "only first row imported from " + Decimal.NatToString(n) + " rows"]);
      }
    } else if step.table in PlainTables {
      s := s.(imported := s.imported[c := |payloads|]);
    }
    return Success(s), sent;
  }

  /** The `WeightRecords` branch of `run`, on the mapped rows. */
  method MigrateWeightTable(ctx: Context, noco: NocoDb, pb: PocketBase, c: string, mapped: seq<WeightRow>, summary: Summary)
    returns (r: Result<Summary>, ghost sent: seq<PbCall>)
    requires pb.Valid() && Fetches(ctx, noco.files)
    modifies noco, pb
    ensures pb.Valid() && NocoKept(noco)
    ensures pb.collections.Keys == old(pb.collections).Keys
    ensures r.Success? <==> mapped == [] || (c in old(pb.collections) && AllAccepted(pb.accepts, c, WeightPayloads(mapped)))
    ensures r.Success? ==> var t := WeightsAfter(ctx, pb, c, mapped, Tables(old(pb.collections), old(pb.nextId), summary));
      pb.collections == t.coll && pb.nextId == t.next && r.value == t.summary
    ensures pb.calls == old(pb.calls) + sent && OnlyWrites(sent)
  {
    var counts;
    ghost var n;
    counts, sent, n := MigrateWeights(ctx, noco, pb, c, mapped);
    if counts.Failure? {
      WeightsStopped(ctx, pb, c, mapped, n, old(pb.collections), old(pb.nextId), pb.collections, pb.nextId);
      return Failure(counts.error), sent;
    }
    WeightsDone(ctx, pb, c, mapped, old(pb.collections), old(pb.nextId), pb.collections, pb.nextId, counts.value.0, counts.value.1);
    return Success(summary.(
      imported := summary.imported[c := |mapped|],
      uploaded := summary.uploaded + counts.value.0,
      failed := summary.failed + counts.value.1)), sent;
  }

  /**
   * One iteration of the table loop of `run`: skip a table without an id,
   * otherwise list its rows and take the branch of its name.
   */
  method MigrateTable(ctx: Context, noco: NocoDb, pb: PocketBase, step: TableStep, summary: Summary)
    returns (r: Result<Summary>, ghost sent: seq<PbCall>)
    requires pb.Valid() && Fetches(ctx, noco.files) && ctx.rows == noco.rows
    modifies noco, pb
    ensures pb.Valid() && NocoKept(noco)
    ensures pb.collections.Keys == old(pb.collections).Keys
    ensures r.Success? <==> StepSucceeds(ctx, pb, step, old(pb.collections).Keys)
    ensures r.Success? ==> var t := StepAfter(ctx, pb, step, Tables(old(pb.collections), old(pb.nextId), summary));
      pb.collections == t.coll && pb.nextId == t.next && r.value == t.summary
    ensures pb.calls == old(pb.calls) + sent && OnlyWrites(sent)
  {
    var tableId := TableId(ctx, step.table);
    if tableId.None? {
      return Success(summary.(skipped := summary.skipped[step.collection := "missing table"])), [];
    }
    var rows := ListAllNocoRows(noco, tableId.value);
    if rows.Failure? {
      return Failure(rows.error), [];
    }
    if step.table == "WeightRecords" {
      var mapped := MapWeightRecords(ctx.host, rows.value);
      r, sent := MigrateWeightTable(ctx, noco, pb, step.collection, mapped, summary);
    } else {
      r, sent := MigratePlain(pb, ctx.host, step, rows.value, summary);
    }
  }

  /** The state after migrating `steps` in order, each going through. */
  function StepsAfter(ctx: Context, pb: PocketBase, steps: seq<TableStep>, t: Tables): Tables {
    if steps == [] then t
    else
      var n := |steps| - 1;
      StepAfter(ctx, pb, steps[n], StepsAfter(ctx, pb, steps[..n], t))
  }

  predicate StepsSucceed(ctx: Context, pb: PocketBase, steps: seq<TableStep>, keys: set<string>) {
    forall i :: 0 <= i < |steps| ==> StepSucceeds(ctx, pb, steps[i], keys)
  }

  /** `now` is the state after the first `i` tables of the mapping, all of which went through, from `start`. */
  ghost predicate TablesSoFar(ctx: Context, pb: PocketBase, i: nat, start: Tables, now: Tables) {
    && i <= |Mapping|
    && StepsSucceed(ctx, pb, Mapping[..i], start.coll.Keys)
    && now == StepsAfter(ctx, pb, Mapping[..i], start)
  }

  lemma TablesNext(ctx: Context, pb: PocketBase, i: nat, start: Tables, now: Tables)
    requires i < |Mapping| && TablesSoFar(ctx, pb, i, start, now)
    requires StepSucceeds(ctx, pb, Mapping[i], start.coll.Keys)
    ensures TablesSoFar(ctx, pb, i + 1, start, StepAfter(ctx, pb, Mapping[i], now))
  {
    assert Mapping[..i + 1][..i] == Mapping[..i];
  }

  lemma TablesDone(ctx: Context, pb: PocketBase, start: Tables, now: Tables)
    requires TablesSoFar(ctx, pb, |Mapping|, start, now)
    ensures StepsSucceed(ctx, pb, Mapping, start.coll.Keys) && now == StepsAfter(ctx, pb, Mapping, start)
  {
    assert Mapping[..|Mapping|] == Mapping;
  }

  /**
   * The second loop of `run`: migrate each table of the mapping in order.
   * The first error ends the run.
   */
  method MigrateTables(ctx: Context, noco: NocoDb, pb: PocketBase, summary: Summary)
    returns (r: Result<Summary>, ghost sent: seq<PbCall>)
    requires pb.Valid() && Fetches(ctx, noco.files) && ctx.rows == noco.rows
    modifies noco, pb
    ensures pb.Valid() && NocoKept(noco)
    ensures r.Success? <==> StepsSucceed(ctx, pb, Mapping, old(pb.collections).Keys)
    ensures r.Success? ==> var t := StepsAfter(ctx, pb, Mapping, Tables(old(pb.collections), old(pb.nextId), summary));
      pb.collections == t.coll && pb.nextId == t.next && r.value == t.summary
    ensures pb.calls == old(pb.calls) + sent && OnlyWrites(sent)
  {
    var s := summary;
    sent := [];
    for i := 0 to |Mapping|
      invariant pb.Valid() && NocoKept(noco) && ctx.rows == noco.rows
      invariant pb.collections.Keys == old(pb.collections).Keys
      invariant TablesSoFar(ctx, pb, i, Tables(old(pb.collections), old(pb.nextId), summary), Tables(pb.collections, pb.nextId, s))
      invariant pb.calls == old(pb.calls) + sent && OnlyWrites(sent)
    {
      ghost var now := Tables(pb.collections, pb.nextId, s);
      var out, more := MigrateTable(ctx, noco, pb, Mapping[i], s);
      Seqs.AppendAssoc(old(pb.calls), sent, more);
      sent := sent + more;
      if out.Failure? {
        return Failure(out.error), sent;
      }
      TablesNext(ctx, pb, i, Tables(old(pb.collections), old(pb.nextId), summary), now);
      s := out.value;
    }
    TablesDone(ctx, pb, Tables(old(pb.collections), old(pb.nextId), summary), Tables(pb.collections, pb.nextId, s));
    return Success(s), sent;
  }

  // ------------------------------------------------------------------ run

  /** What `run` reads from the environment before its first request. */
  datatype Settings = Settings(nocoUrl: string, nocoToken: string, pbUrl: string, email: string, password: string)

  /** A variable is set in the process environment or in the file. */
  predicate Present(proc: MigrateConfig.Env, env: MigrateConfig.Env, key: string) {
    MigrateConfig.IsSet(proc, key) || MigrateConfig.IsSet(env, key)
  }

  /**
   * The three required variables, in the order `run` asks for them, then the
   * admin credentials; the first one missing is the error.
   */
  function ConfigOf(proc: MigrateConfig.Env, file: Option<string>): (r: Result<Settings>)
    ensures var env := MigrateConfig.EnvOfFile(file);
      r.Success? <==>
        && MigrateConfig.RequiredEnv(proc, env, "NEXT_PUBLIC_NOCODB_URL").Success?
        && MigrateConfig.RequiredEnv(proc, env, "NEXT_PUBLIC_NOCODB_API_TOKEN").Success?
        && MigrateConfig.RequiredEnv(proc, env, "NEXT_PUBLIC_POCKETBASE_URL").Success?
        && MigrateConfig.AdminCredentials(proc, env).Success?
    ensures r.Success? ==> r.value.nocoUrl != "" && r.value.email != "" && r.value.password != ""
    ensures !MigrateConfig.IsSet(proc, "NEXT_PUBLIC_NOCODB_URL") && !MigrateConfig.IsSet(MigrateConfig.EnvOfFile(file), "NEXT_PUBLIC_NOCODB_URL")
      ==> r == Failure("Missing env: " + "NEXT_PUBLIC_NOCODB_URL")
  {
    var env := MigrateConfig.EnvOfFile(file);
    var nocoUrl := MigrateConfig.RequiredEnv(proc, env, "NEXT_PUBLIC_NOCODB_URL");
    var nocoToken := MigrateConfig.RequiredEnv(proc, env, "NEXT_PUBLIC_NOCODB_API_TOKEN");
    var pbUrl := MigrateConfig.RequiredEnv(proc, env, "NEXT_PUBLIC_POCKETBASE_URL");
    var creds := MigrateConfig.AdminCredentials(proc, env);
    if nocoUrl.Failure? then Failure(nocoUrl.error)
    else if nocoToken.Failure? then Failure(nocoToken.error)
    else if pbUrl.Failure? then Failure(pbUrl.error)
    else if creds.Failure? then Failure(creds.error)
    else Success(Settings(nocoUrl.value, nocoToken.value, pbUrl.value, creds.value.0, creds.value.1))
  }

  /**
   * The error of `ConfigOf` is the message of the first setting missing, in
   * the order `run` reads them.
   */
  lemma ConfigErrors(proc: MigrateConfig.Env, file: Option<string>)
    ensures var env := MigrateConfig.EnvOfFile(file);
      && Present(proc, env, "NEXT_PUBLIC_NOCODB_URL")
      && !Present(proc, env, "NEXT_PUBLIC_NOCODB_API_TOKEN")
      ==> ConfigOf(proc, file) == Failure("Missing env: " + "NEXT_PUBLIC_NOCODB_API_TOKEN")
    ensures var env := MigrateConfig.EnvOfFile(file);
      && Present(proc, env, "NEXT_PUBLIC_NOCODB_URL") && Present(proc, env, "NEXT_PUBLIC_NOCODB_API_TOKEN")
      && !Present(proc, env, "NEXT_PUBLIC_POCKETBASE_URL")
      ==> ConfigOf(proc, file) == Failure("Missing env: " + "NEXT_PUBLIC_POCKETBASE_URL")
    ensures var env := MigrateConfig.EnvOfFile(file);
      && Present(proc, env, "NEXT_PUBLIC_NOCODB_URL") && Present(proc, env, "NEXT_PUBLIC_NOCODB_API_TOKEN")
      && Present(proc, env, "NEXT_PUBLIC_POCKETBASE_URL")
      && !(MigrateConfig.AnySet(MigrateConfig.EmailLookups(proc, env)) && MigrateConfig.AnySet(MigrateConfig.PasswordLookups(proc, env)))
      ==> ConfigOf(proc, file) == Failure(MigrateConfig.CredentialsError)
  {
  }

  /** A configuration found holds the values the lookups give. */
  lemma ConfigValues(proc: MigrateConfig.Env, file: Option<string>)
    ensures var env := MigrateConfig.EnvOfFile(file);
      ConfigOf(proc, file).Success? ==> ConfigOf(proc, file).value == Settings(
        MigrateConfig.RequiredEnv(proc, env, "NEXT_PUBLIC_NOCODB_URL").value,
        MigrateConfig.RequiredEnv(proc, env, "NEXT_PUBLIC_NOCODB_API_TOKEN").value,
        MigrateConfig.RequiredEnv(proc, env, "NEXT_PUBLIC_POCKETBASE_URL").value,
        MigrateConfig.FirstSet(MigrateConfig.EmailLookups(proc, env)).value,
        MigrateConfig.FirstSet(MigrateConfig.PasswordLookups(proc, env)).value)
  {
  }

  /** The settings and the table ids `run` has once logged in and resolved. */
  datatype Prep = Prep(settings: Settings, tableIds: map<string, string>)

  /** The outcome of `pbAuth` and the two NocoDB lookups, from the stores' state. */
  function Connected(settings: Settings, title: string, pb: PocketBase,
                     bases: seq<NocoBase>, tables: map<string, seq<NocoTable>>): Result<Prep>
  {
    var token := AuthOutcome(pb.authReply, settings.email, settings.password);
    if token.Failure? then Failure(token.error)
    else
      var baseId := BaseIdOf(bases, title);
      if baseId.Failure? then Failure(baseId.error)
      else if baseId.value !in tables then Failure("NocoDB tables not found: " + baseId.value)
      else Success(Prep(settings, TableIdMap(tables[baseId.value])))
  }

  /** The outcome of everything `run` does before clearing, from the stores' state. */
  function Prepared(proc: MigrateConfig.Env, file: Option<string>, pb: PocketBase,
                    bases: seq<NocoBase>, tables: map<string, seq<NocoTable>>): Result<Prep>
  {
    var config := ConfigOf(proc, file);
    if config.Failure? then Failure(config.error)
    else Connected(config.value, MigrateConfig.BaseTitle(proc), pb, bases, tables)
  }

  /** Whether every request is a login. */
  predicate OnlyAuth(calls: seq<PbCall>) {
    forall i :: 0 <= i < |calls| ==> calls[i].AuthCall?
  }

  /** The first lines of `run`: `loadEnv`, the three `requiredEnv` calls and the credentials check. */
  method Configure(proc: MigrateConfig.Env, file: Option<string>) returns (r: Result<Settings>)
    ensures r == ConfigOf(proc, file)
  {
    var env := MigrateConfig.LoadEnv(file);
    var nocoUrl := MigrateConfig.RequiredEnv(proc, env, "NEXT_PUBLIC_NOCODB_URL");
    if nocoUrl.Failure? {
      return Failure(nocoUrl.error);
    }
    var nocoToken := MigrateConfig.RequiredEnv(proc, env, "NEXT_PUBLIC_NOCODB_API_TOKEN");
    if nocoToken.Failure? {
      return Failure(nocoToken.error);
    }
    var pbUrl := MigrateConfig.RequiredEnv(proc, env, "NEXT_PUBLIC_POCKETBASE_URL");
    if pbUrl.Failure? {
      return Failure(pbUrl.error);
    }
    var creds := MigrateConfig.AdminCredentials(proc, env);
    if creds.Failure? {
      return Failure(creds.error);
    }
    return Success(Settings(nocoUrl.value, nocoToken.value, pbUrl.value, creds.value.0, creds.value.1));
  }

  lemma AuthCallsKinds(reply: (AuthEndpoint, string, string) -> Result<string>, email: string, password: string)
    ensures OnlyAuth(AuthCalls(reply, email, password))
  {
  }

  /**
   * `pbAuth`, then `resolveNocoBaseId` and `resolveNocoTableIds`. PocketBase
   * is only asked to log in.
   */
  method Connect(settings: Settings, title: string, noco: NocoDb, pb: PocketBase)
    returns (r: Result<Prep>, ghost auth: seq<PbCall>)
    modifies noco, pb
    ensures r.Success? <==> Connected(settings, title, pb, old(noco.bases), old(noco.tables)).Success?
    ensures r.Success? ==> r == Connected(settings, title, pb, old(noco.bases), old(noco.tables))
    ensures NocoKept(noco)
    ensures pb.collections == old(pb.collections) && pb.nextId == old(pb.nextId)
    ensures pb.calls == old(pb.calls) + auth && OnlyAuth(auth)
  {
    var token := PbAuth(pb, settings.email, settings.password);
    auth := AuthCalls(pb.authReply, settings.email, settings.password);
    AuthCallsKinds(pb.authReply, settings.email, settings.password);
    if token.Failure? {
      return Failure(token.error), auth;
    }
    var baseId := ResolveNocoBaseId(noco, title);
    if baseId.Failure? {
      return Failure(baseId.error), auth;
    }
    var tableIds := ResolveTableIds(noco, baseId.value);
    if tableIds.Failure? {
      return Failure(tableIds.error), auth;
    }
    return Success(Prep(settings, tableIds.value)), auth;
  }

  /**
   * The part of `run` before clearing. A configuration error comes before
   * any request.
   */
  method Prepare(proc: MigrateConfig.Env, file: Option<string>, noco: NocoDb, pb: PocketBase)
    returns (r: Result<Prep>, ghost auth: seq<PbCall>)
    modifies noco, pb
    ensures r.Success? <==> Prepared(proc, file, pb, old(noco.bases), old(noco.tables)).Success?
    ensures r.Success? ==> r == Prepared(proc, file, pb, old(noco.bases), old(noco.tables))
    ensures NocoKept(noco)
    ensures pb.collections == old(pb.collections) && pb.nextId == old(pb.nextId)
    ensures pb.calls == old(pb.calls) + auth && OnlyAuth(auth)
    ensures ConfigOf(proc, file).Failure? ==> r == Failure(ConfigOf(proc, file).error) && auth == [] && noco.calls == old(noco.calls)
  {
    ghost var bases, tables := noco.bases, noco.tables;
    var config := Configure(proc, file);
    if config.Failure? {
      return Failure(config.error), [];
    }
    assert Prepared(proc, file, pb, bases, tables) == Connected(config.value, MigrateConfig.BaseTitle(proc), pb, bases, tables);
    r, auth := Connect(config.value, MigrateConfig.BaseTitle(proc), noco, pb);
  }

  /** The context the table loop runs in: attachments are fetched from NocoDB's files. */
  function RunContext(host: Host, prep: Prep, rows: map<string, seq<NocoRow>>, files: map<string, Blob>, clock: nat -> nat): Context {
    var url := prep.settings.nocoUrl;
    Context(host, url, prep.tableIds, rows, (a, name) => AttachmentFile(host, files, url, a, name), clock)
  }

  /** Clearing keeps the set of collections. */
  lemma ClearedKeys(coll: map<string, seq<PbRecord>>)
    ensures Start(coll, 0).coll.Keys == coll.Keys
  {
  }

  /** The state the table loop starts from: the six collections emptied, their old sizes recorded. */
  function Start(coll: map<string, seq<PbRecord>>, next: nat): Tables {
    Tables(ClearedMap(coll, ClearOrder), next, Summary(map[], map[], DeletedCounts(coll, ClearOrder), 0, 0))
  }

  /** Whether every collection of the mapping exists in PocketBase. */
  predicate AllPresent(coll: map<string, seq<PbRecord>>) {
    forall k :: k in ClearOrder ==> k in coll
  }

  /**
   * The first loop of `run` with its outcome in the table loop's terms: it
   * succeeds exactly when every collection exists, and then leaves the
   * state the table loop starts from.
   */
  method ClearTargets(pb: PocketBase) returns (r: Result<Summary>, ghost clears: seq<PbCall>)
    requires pb.Valid()
    modifies pb
    ensures pb.Valid() && pb.calls == old(pb.calls) + clears && OnlyClears(clears)
    ensures r.Success? <==> AllPresent(old(pb.collections))
    ensures AllPresent(old(pb.collections)) ==> clears == ClearAllCalls(old(pb.collections), ClearOrder)
    ensures r.Success? ==> Tables(pb.collections, pb.nextId, r.value) == Start(old(pb.collections), old(pb.nextId))
  {
    var deleted;
    ghost var n;
    deleted, clears, n := ClearAll(pb);
    if deleted.Failure? {
      ClearAllCallsKinds(old(pb.collections), ClearOrder[..n + 1]);
      return Failure(deleted.error), clears;
    }
    ClearedAll(old(pb.collections), pb.collections, deleted.value, clears);
    ClearAllCallsKinds(old(pb.collections), ClearOrder);
    r := Success(Summary(map[], map[], deleted.value, 0, 0));
  }

  /**
   * The two loops of `run`: clear the collections in reverse mapping order,
   * then migrate the tables in mapping order.
   */
  method MigrateAll(ctx: Context, noco: NocoDb, pb: PocketBase)
    returns (r: Result<Summary>, ghost clears: seq<PbCall>, ghost writes: seq<PbCall>)
    requires pb.Valid() && Fetches(ctx, noco.files) && ctx.rows == noco.rows
    modifies noco, pb
    ensures pb.Valid() && NocoKept(noco)
    ensures pb.calls == old(pb.calls) + clears + writes
    ensures OnlyClears(clears) && OnlyWrites(writes)
    ensures AllPresent(old(pb.collections)) ==> clears == ClearAllCalls(old(pb.collections), ClearOrder)
    ensures r.Success? <==> AllPresent(old(pb.collections)) && StepsSucceed(ctx, pb, Mapping, old(pb.collections).Keys)
    ensures r.Success? ==> var t := StepsAfter(ctx, pb, Mapping, Start(old(pb.collections), old(pb.nextId)));
      pb.collections == t.coll && pb.nextId == t.next && r.value == t.summary
  {
    var start;
    start, clears := ClearTargets(pb);
    if start.Failure? {
      return Failure(start.error), clears, [];
    }
    ClearedKeys(old(pb.collections));
    r, writes := MigrateTables(ctx, noco, pb, start.value);
  }

  /**
   * `run`: prepare, then clear and migrate. The PocketBase trace is the
   * logins, then only listings and deletes, then only creates and uploads.
   */
  method Run(host: Host, proc: MigrateConfig.Env, file: Option<string>, noco: NocoDb, pb: PocketBase, clock: nat -> nat)
    returns (r: Result<Summary>, ghost auth: seq<PbCall>, ghost clears: seq<PbCall>, ghost writes: seq<PbCall>)
    requires pb.Valid()
    modifies noco, pb
    ensures pb.Valid() && NocoKept(noco)
    ensures pb.calls == old(pb.calls) + auth + clears + writes
    ensures OnlyAuth(auth) && OnlyClears(clears) && OnlyWrites(writes)
    ensures ConfigOf(proc, file).Failure? ==>
      r == Failure(ConfigOf(proc, file).error) && pb.calls == old(pb.calls) && noco.calls == old(noco.calls)
    ensures var prep := Prepared(proc, file, pb, old(noco.bases), old(noco.tables));
      prep.Failure? ==> r.Failure? && clears == [] && writes == [] && pb.collections == old(pb.collections)
    ensures var prep := Prepared(proc, file, pb, old(noco.bases), old(noco.tables));
      prep.Success? && AllPresent(old(pb.collections)) ==> clears == ClearAllCalls(old(pb.collections), ClearOrder)
    ensures var prep := Prepared(proc, file, pb, old(noco.bases), old(noco.tables));
      r.Success? <==>
        && prep.Success? && AllPresent(old(pb.collections))
        && StepsSucceed(RunContext(host, prep.value, old(noco.rows), noco.files, clock), pb, Mapping, old(pb.collections).Keys)
    ensures var prep := Prepared(proc, file, pb, old(noco.bases), old(noco.tables));
      r.Success? ==>
        var t := StepsAfter(RunContext(host, prep.value, old(noco.rows), noco.files, clock), pb, Mapping, Start(old(pb.collections), old(pb.nextId)));
        pb.collections == t.coll && pb.nextId == t.next && r.value == t.summary
  {
    var prep;
    prep, auth := Prepare(proc, file, noco, pb);
    if prep.Failure? {
      return Failure(prep.error), auth, [], [];
    }
    var ctx := RunContext(host, prep.value, noco.rows, noco.files, clock);
    r, clears, writes := MigrateAll(ctx, noco, pb);
  }
}
