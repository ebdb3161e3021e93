/**
 * The migration itself (`run` in scripts/migrate-nocodb-to-pocketbase.js):
 * load the configuration, log in to PocketBase, resolve the NocoDB base and
 * its tables, empty the six target collections (in reverse order), then copy
 * each NocoDB table into its collection, with the first photo of each weight
 * record uploaded when the create response names the new record.
 */
module Migrate {
  import opened Wrappers
  import opened Js
  import opened Stores
  import Seqs
  import Decimal
  import MigrateConfig
  import MigrateMappers
  import opened MigrateLoops

  /** One entry of `NOCODB_TABLE_TO_COLLECTION`. */
  datatype TableStep = TableStep(table: string, collection: string)

  const Mapping: seq<TableStep> := [
    TableStep("Users", "user_targets"),
    TableStep("FoodLibrary", "food_library"),
    TableStep("FoodRecords", "food_records"),
    TableStep("WaterRecords", "water_records"),
    TableStep("ExerciseRecords", "exercise_records"),
    TableStep("WeightRecords", "weight_records")
  ]

  function Collections(steps: seq<TableStep>): seq<string> {
    Seqs.MapSeq(steps, (s: TableStep) => s.collection)
  }

  predicate Distinct(names: seq<string>) {
    forall i, j :: 0 <= i < j < |names| ==> names[i] != names[j]
  }

  /** `c`'s records followed by `more`; a missing collection stays missing. */
  function Appended(m: map<string, seq<PbRecord>>, c: string, more: seq<PbRecord>): map<string, seq<PbRecord>> {
    if c in m then m[c := m[c] + more] else m
  }

  // ------------------------------------------------------------- creating

  /** The records a run of creates adds, with ids handed out from `next`. */
  function NewRecords(payloads: seq<Record>, next: nat): seq<PbRecord> {
    seq(|payloads|, i requires 0 <= i < |payloads| => PbRecord(next + i, payloads[i], None))
  }

  function CreateCalls(c: string, payloads: seq<Record>): seq<PbCall> {
    seq(|payloads|, i requires 0 <= i < |payloads| => CreateCall(c, payloads[i]))
  }

  predicate AllAccepted(accepts: (string, Record) -> bool, c: string, payloads: seq<Record>) {
    forall i :: 0 <= i < |payloads| ==> accepts(c, payloads[i])
  }

  /** Whether every request in `calls` creates a record or uploads a photo. */
  predicate OnlyWrites(calls: seq<PbCall>) {
    forall i :: 0 <= i < |calls| ==> calls[i].CreateCall? || calls[i].UploadCall?
  }

  /** A trace of writes followed by more writes. */
  lemma WritesGrow(log: seq<PbCall>, sent: seq<PbCall>, more: seq<PbCall>)
    requires OnlyWrites(sent) && OnlyWrites(more)
    ensures log + sent + more == log + (sent + more) && OnlyWrites(sent + more)
  {
    Seqs.AppendAssoc(log, sent, more);
  }

  /**
   * `for (const payload of mapped) await createPocketBaseRecord(...)`: creates
   * the payloads in order; the first rejected create throws, leaving the
   * records created before it in place.
   */
  method CreateAll(pb: PocketBase, c: string, payloads: seq<Record>) returns (r: Result<()>, ghost sent: seq<PbCall>, ghost stop: nat)
    requires pb.Valid()
    modifies pb
    ensures pb.Valid()
    ensures r.Success? <==> payloads == [] || (c in old(pb.collections) && AllAccepted(pb.accepts, c, payloads))
    ensures r.Success? ==> (
      && pb.collections == Appended(old(pb.collections), c, NewRecords(payloads, old(pb.nextId)))
      && pb.nextId == old(pb.nextId) + |payloads|
      && pb.calls == old(pb.calls) + CreateCalls(c, payloads))
    ensures r.Failure? ==>
      && stop < |payloads| && !(c in old(pb.collections) && pb.accepts(c, payloads[stop]))
      && pb.collections == Appended(old(pb.collections), c, NewRecords(payloads[..stop], old(pb.nextId)))
      && pb.calls == old(pb.calls) + CreateCalls(c, payloads[..stop + 1])
    ensures pb.collections.Keys == old(pb.collections).Keys
    ensures pb.calls == old(pb.calls) + sent && OnlyWrites(sent)
  {
    assert NewRecords(payloads[..0], pb.nextId) == [];
    if c in pb.collections {
      assert pb.collections[c] + [] == pb.collections[c];
      assert pb.collections[c := pb.collections[c]] == pb.collections;
    }
    for i := 0 to |payloads|
      invariant pb.Valid()
      invariant i > 0 ==> c in old(pb.collections)
      invariant AllAccepted(pb.accepts, c, payloads[..i])
      invariant pb.collections == Appended(old(pb.collections), c, NewRecords(payloads[..i], old(pb.nextId)))
      invariant pb.nextId == old(pb.nextId) + i
      invariant pb.calls == old(pb.calls) + CreateCalls(c, payloads[..i])
    {
      CreateStep(old(pb.collections), c, payloads, i, old(pb.nextId));
      var created := pb.Create(c, payloads[i]);
      if created.Failure? {
        assert pb.calls == old(pb.calls) + CreateCalls(c, payloads[..i + 1]);
        assert !AllAccepted(pb.accepts, c, payloads) || c !in old(pb.collections) by {
          assert !(c in old(pb.collections) && pb.accepts(c, payloads[i]));
        }
        return Failure(created.error), CreateCalls(c, payloads[..i + 1]), i;
      }
    }
    assert payloads[..|payloads|] == payloads;
    return Success(()), CreateCalls(c, payloads), 0;
  }

  /** One more create, in terms of the prefixes of the payloads. */
  lemma CreateStep(m: map<string, seq<PbRecord>>, c: string, payloads: seq<Record>, i: nat, next: nat)
    requires i < |payloads|
    ensures NewRecords(payloads[..i + 1], next) == NewRecords(payloads[..i], next) + [PbRecord(next + i, payloads[i], None)]
    ensures CreateCalls(c, payloads[..i + 1]) == CreateCalls(c, payloads[..i]) + [CreateCall(c, payloads[i])]
    ensures c in m ==> (
      Appended(m, c, NewRecords(payloads[..i + 1], next))
        == Appended(m, c, NewRecords(payloads[..i], next))[c := m[c] + NewRecords(payloads[..i], next) + [PbRecord(next + i, payloads[i], None)]])
  {
    var before := NewRecords(payloads[..i], next);
    var last := PbRecord(next + i, payloads[i], None);
    assert NewRecords(payloads[..i + 1], next) == before + [last];
    if c in m {
      assert m[c] + (before + [last]) == m[c] + before + [last];
    }
  }

  // -------------------------------------------------------------- weights

  /**
   * What the migration reads besides the stores: the runtime, the NocoDB URL
   * attachments are resolved against, the resolved table ids, the NocoDB rows,
   * the file `buildAttachmentFile` makes of an attachment and a fallback name,
   * and the clock reading at each weight row (for `weight-photo-${Date.now()}`).
   */
  datatype Context = Context(
    host: Host, nocoUrl: string, tableIds: map<string, string>,
    rows: map<string, seq<NocoRow>>, fetch: (Value, string) -> Result<Option<PbFile>>,
    clock: nat -> nat)

  /** `fetch` is `buildAttachmentFile` over NocoDB's stored files. */
  ghost predicate Fetches(ctx: Context, files: map<string, Blob>) {
    forall a, name {:trigger AttachmentFile(ctx.host, files, ctx.nocoUrl, a, name)} ::
      ctx.fetch(a, name) == AttachmentFile(ctx.host, files, ctx.nocoUrl, a, name)
  }

  /** NocoDB's data is as it was; only its request log may have grown. */
  twostate predicate NocoKept(noco: NocoDb)
    reads noco
  {
    noco.bases == old(noco.bases) && noco.tables == old(noco.tables) && noco.rows == old(noco.rows) && noco.nextId == old(noco.nextId)
  }

  /** What became of a weight record's first photo. */
  datatype PhotoOutcome = NotAttempted | NoFile | Uploaded(file: PbFile) | Failed

  predicate IsUploaded(o: PhotoOutcome) { o.Uploaded? }
  predicate IsFailed(o: PhotoOutcome) { o.Failed? }

  /** The outcome of an attempted photo, given what `buildAttachmentFile` produced. */
  function AttemptOutcome(file: Result<Option<PbFile>>, acceptsFile: PbFile -> bool): PhotoOutcome {
    match file
    case Failure(_) => Failed
    case Success(None) => NoFile
    case Success(Some(f)) => if acceptsFile(f) then Uploaded(f) else Failed
  }

  /**
   * A photo is attempted when the row has attachments and the create response
   * names the record; the attempt fails when resolving or downloading the
   * first attachment fails or PocketBase rejects the file, and uploads nothing
   * when the attachment has no path.
   */
  function PhotoOutcomeOf(ctx: Context, pb: PocketBase, row: MigrateMappers.WeightRow, fallbackName: string): PhotoOutcome {
    if |row.attachments| == 0 || !pb.revealsIds then NotAttempted
    else AttemptOutcome(ctx.fetch(row.attachments[0], fallbackName), pb.acceptsFile)
  }

  function PhotoOf(o: PhotoOutcome): Option<PbFile> {
    if o.Uploaded? then Some(o.file) else None
  }

  /** The downloads one weight row makes. */
  function RowDownloads(ctx: Context, pb: PocketBase, row: MigrateMappers.WeightRow): seq<NocoCall> {
    if |row.attachments| == 0 || !pb.revealsIds then [] else DownloadCalls(ctx.host, ctx.nocoUrl, row.attachments[0])
  }

  /**
   * The `try` block of the weight loop: build the file from the attachment
   * and upload it onto `rec`, the record just created, the newest of `c`.
   * Any error is caught and counted.
   */
  method AttachPhoto(ctx: Context, noco: NocoDb, pb: PocketBase, c: string, ghost before: seq<PbRecord>, rec: PbRecord,
                     attachment: Value, fallbackName: string)
    returns (o: PhotoOutcome, ghost sent: seq<PbCall>)
    requires pb.Valid() && Fetches(ctx, noco.files)
    requires c in pb.collections && pb.collections[c] == before + [rec] && IdsBelow(before, rec.id) && rec.photo.None?
    modifies noco, pb
    ensures pb.Valid() && NocoKept(noco)
    ensures o == AttemptOutcome(ctx.fetch(attachment, fallbackName), pb.acceptsFile)
    ensures pb.collections == old(pb.collections)[c := before + [rec.(photo := PhotoOf(o))]]
    ensures pb.nextId == old(pb.nextId)
    ensures noco.calls == old(noco.calls) + DownloadCalls(ctx.host, ctx.nocoUrl, attachment)
    ensures pb.calls == old(pb.calls) + sent && OnlyWrites(sent)
  {
    sent := [];
    assert pb.collections[c := before + [rec]] == pb.collections;
    var file := BuildAttachmentFile(ctx.host, noco, ctx.nocoUrl, attachment, fallbackName);
    if file.Failure? {
      return Failed, sent;
    }
    if file.value.None? {
      return NoFile, sent;
    }
    var f := file.value.value;
    assert HasRecord(before + [rec], rec.id) by {
      assert (before + [rec])[|before|].id == rec.id;
    }
    var up := pb.Upload(c, rec.id, f);
    sent := [UploadCall(c, rec.id, f)];
    if up.Failure? {
      return Failed, sent;
    }
    WithPhotoLast(before, rec, f);
    return Uploaded(f), sent;
  }

  /**
   * `if (row.attachments.length > 0 && created.id) { try { ... } catch { ... } }`
   * on `rec`, the record just created, the newest of `c`.
   */
  method PhotoStep(ctx: Context, noco: NocoDb, pb: PocketBase, c: string, ghost before: seq<PbRecord>, rec: PbRecord,
                   created: Option<nat>, row: MigrateMappers.WeightRow, fallbackName: string)
    returns (o: PhotoOutcome, ghost sent: seq<PbCall>)
    requires pb.Valid() && Fetches(ctx, noco.files)
    requires c in pb.collections && pb.collections[c] == before + [rec] && IdsBelow(before, rec.id) && rec.photo.None?
    requires created.Some? <==> pb.revealsIds
    requires created.Some? ==> created.value == rec.id
    modifies noco, pb
    ensures pb.Valid() && NocoKept(noco)
    ensures o == PhotoOutcomeOf(ctx, pb, row, fallbackName)
    ensures pb.collections == old(pb.collections)[c := before + [rec.(photo := PhotoOf(o))]]
    ensures pb.nextId == old(pb.nextId)
    ensures noco.calls == old(noco.calls) + RowDownloads(ctx, pb, row)
    ensures pb.calls == old(pb.calls) + sent && OnlyWrites(sent)
  {
    if |row.attachments| == 0 || created.None? {
      assert rec.(photo := None) == rec;
      assert pb.collections[c := before + [rec]] == pb.collections;
      return NotAttempted, [];
    }
    o, sent := AttachPhoto(ctx, noco, pb, c, before, rec, row.attachments[0], fallbackName);
  }

  /**
   * One iteration of the weight loop: create the record and, when it has
   * attachments and the response names it, try to upload the first one. Only
   * the create can make the migration fail; a failed photo is counted.
   */
  method MigrateWeightRow(ctx: Context, noco: NocoDb, pb: PocketBase, c: string, row: MigrateMappers.WeightRow, fallbackName: string)
    returns (r: Result<PhotoOutcome>, ghost sent: seq<PbCall>)
    requires pb.Valid() && Fetches(ctx, noco.files)
    modifies noco, pb
    ensures pb.Valid() && NocoKept(noco)
    ensures r.Success? <==> c in old(pb.collections) && pb.accepts(c, row.payload)
    ensures r.Success? ==> (
      && r.value == PhotoOutcomeOf(ctx, pb, row, fallbackName)
      && pb.collections == old(pb.collections)[c := old(pb.collections)[c] + [PbRecord(old(pb.nextId), row.payload, PhotoOf(r.value))]]
      && pb.nextId == old(pb.nextId) + 1
      && noco.calls == old(noco.calls) + RowDownloads(ctx, pb, row))
    ensures r.Failure? ==> pb.collections == old(pb.collections) && pb.nextId == old(pb.nextId)
    ensures pb.calls == old(pb.calls) + sent && OnlyWrites(sent) && sent != [] && sent[0] == CreateCall(c, row.payload)
  {
    ghost var before := if c in pb.collections then pb.collections[c] else [];
    assert IdsBelow(before, pb.nextId);
    var created := pb.Create(c, row.payload);
    sent := [CreateCall(c, row.payload)];
    if created.Failure? {
      return Failure(created.error), sent;
    }
    var rec := PbRecord(pb.nextId - 1, row.payload, None);
    var o, more := PhotoStep(ctx, noco, pb, c, before, rec, created.value, row, fallbackName);
    sent := sent + more;
    return Success(o), sent;
  }

  /** The photo outcome of each weight row, the clock read at row `i` naming its fallback file. */
  function WeightOutcomes(ctx: Context, pb: PocketBase, rows: seq<MigrateMappers.WeightRow>): seq<PhotoOutcome> {
    if rows == [] then []
    else
      var n := |rows| - 1;
      WeightOutcomes(ctx, pb, rows[..n]) + [PhotoOutcomeOf(ctx, pb, rows[n], FallbackName(ctx.clock(n)))]
  }

  /** The records the weight loop adds, with ids handed out from `next`. */
  function WeightRecords(ctx: Context, pb: PocketBase, rows: seq<MigrateMappers.WeightRow>, next: nat): seq<PbRecord> {
    if rows == [] then []
    else
      var n := |rows| - 1;
      var o := PhotoOutcomeOf(ctx, pb, rows[n], FallbackName(ctx.clock(n)));
      WeightRecords(ctx, pb, rows[..n], next) + [PbRecord(next + n, rows[n].payload, PhotoOf(o))]
  }

  function WeightPayloads(rows: seq<MigrateMappers.WeightRow>): seq<Record> {
    seq(|rows|, i requires 0 <= i < |rows| => rows[i].payload)
  }

  /** How many of `outcomes` satisfy `p`, counted from the last one back. */
  function Tally(outcomes: seq<PhotoOutcome>, p: PhotoOutcome -> bool): nat {
    if outcomes == [] then 0
    else Tally(outcomes[..|outcomes| - 1], p) + (if p(outcomes[|outcomes| - 1]) then 1 else 0)
  }

  function Uploads(outcomes: seq<PhotoOutcome>): nat {
    Tally(outcomes, IsUploaded)
  }

  function Failures(outcomes: seq<PhotoOutcome>): nat {
    Tally(outcomes, IsFailed)
  }

  /** A photo is counted at most once: as uploaded, as failed, or neither. */
  lemma {:induction false} CountsBounded(outcomes: seq<PhotoOutcome>)
    ensures Uploads(outcomes) + Failures(outcomes) <= |outcomes|
  {
    if outcomes != [] {
      CountsBounded(outcomes[..|outcomes| - 1]);
    }
  }

  lemma TallySnoc(outcomes: seq<PhotoOutcome>, o: PhotoOutcome, p: PhotoOutcome -> bool)
    ensures Tally(outcomes + [o], p) == Tally(outcomes, p) + (if p(o) then 1 else 0)
  {
    assert (outcomes + [o])[..|outcomes|] == outcomes;
  }

  /** Appending to `c` one record after another. */
  lemma AppendedSnoc(m: map<string, seq<PbRecord>>, c: string, recs: seq<PbRecord>, rec: PbRecord)
    requires c in m
    ensures var prev := Appended(m, c, recs);
      prev[c := prev[c] + [rec]] == Appended(m, c, recs + [rec])
  {
    assert m[c] + recs + [rec] == m[c] + (recs + [rec]);
  }

  /**
   * `coll` and `nextId` as they are after the first `i` weight rows, starting
   * from collections `m` and next id `next`: every create so far was accepted
   * and `c` holds, after its old records, one record per row.
   */
  ghost predicate WeightsPrefix(ctx: Context, pb: PocketBase, c: string, rows: seq<MigrateMappers.WeightRow>, i: nat,
                                m: map<string, seq<PbRecord>>, next: nat, coll: map<string, seq<PbRecord>>, nextId: nat)
  {
    && i <= |rows|
    && (i > 0 ==> c in m)
    && (forall j :: 0 <= j < i ==> pb.accepts(c, rows[j].payload))
    && coll == Appended(m, c, WeightRecords(ctx, pb, rows[..i], next))
    && nextId == next + i
  }

  /** As `WeightsPrefix`, with `uploaded` and `failed` counting the photos of those rows. */
  ghost predicate WeightsSoFar(ctx: Context, pb: PocketBase, c: string, rows: seq<MigrateMappers.WeightRow>, i: nat,
                               m: map<string, seq<PbRecord>>, next: nat,
                               coll: map<string, seq<PbRecord>>, nextId: nat, uploaded: nat, failed: nat)
  {
    && WeightsPrefix(ctx, pb, c, rows, i, m, next, coll, nextId)
    && uploaded == Uploads(WeightOutcomes(ctx, pb, rows[..i]))
    && failed == Failures(WeightOutcomes(ctx, pb, rows[..i]))
  }

  /** Migrating row `i` extends the state after the rows before it. */
  lemma WeightsStep(ctx: Context, pb: PocketBase, c: string, rows: seq<MigrateMappers.WeightRow>, i: nat,
                    m: map<string, seq<PbRecord>>, next: nat,
                    coll: map<string, seq<PbRecord>>, nextId: nat, uploaded: nat, failed: nat, o: PhotoOutcome)
    requires i < |rows| && WeightsSoFar(ctx, pb, c, rows, i, m, next, coll, nextId, uploaded, failed)
    requires c in coll && pb.accepts(c, rows[i].payload)
    requires o == PhotoOutcomeOf(ctx, pb, rows[i], FallbackName(ctx.clock(i)))
    ensures WeightsSoFar(ctx, pb, c, rows, i + 1, m, next,
      coll[c := coll[c] + [PbRecord(nextId, rows[i].payload, PhotoOf(o))]], nextId + 1,
      uploaded + (if o.Uploaded? then 1 else 0), failed + (if o.Failed? then 1 else 0))
  {
    assert rows[..i + 1][..i] == rows[..i];
    AppendedSnoc(m, c, WeightRecords(ctx, pb, rows[..i], next), PbRecord(nextId, rows[i].payload, PhotoOf(o)));
    TallySnoc(WeightOutcomes(ctx, pb, rows[..i]), o, IsUploaded);
    TallySnoc(WeightOutcomes(ctx, pb, rows[..i]), o, IsFailed);
  }

  /**
   * After all the rows: each was accepted, `c` holds one record per row after
   * its old ones, no collection appeared or vanished, and the counts are those
   * of the rows' photo outcomes.
   */
  lemma WeightsDone(ctx: Context, pb: PocketBase, c: string, rows: seq<MigrateMappers.WeightRow>,
                    m: map<string, seq<PbRecord>>, next: nat,
                    coll: map<string, seq<PbRecord>>, nextId: nat, uploaded: nat, failed: nat)
    requires WeightsSoFar(ctx, pb, c, rows, |rows|, m, next, coll, nextId, uploaded, failed)
    ensures rows == [] || (c in m && AllAccepted(pb.accepts, c, WeightPayloads(rows)))
    ensures coll == Appended(m, c, WeightRecords(ctx, pb, rows, next)) && coll.Keys == m.Keys
    ensures nextId == next + |rows|
    ensures uploaded == Uploads(WeightOutcomes(ctx, pb, rows)) && failed == Failures(WeightOutcomes(ctx, pb, rows))
  {
    assert rows[..|rows|] == rows;
  }

  /**
   * After a rejected create at row `n`: not every row was accepted, `c` holds
   * the records of the rows before `n`, and no collection appeared or vanished.
   */
  lemma WeightsStopped(ctx: Context, pb: PocketBase, c: string, rows: seq<MigrateMappers.WeightRow>, n: nat,
                       m: map<string, seq<PbRecord>>, next: nat, coll: map<string, seq<PbRecord>>, nextId: nat)
    requires n < |rows| && !(c in m && pb.accepts(c, rows[n].payload))
    requires WeightsPrefix(ctx, pb, c, rows, n, m, next, coll, nextId)
    ensures !(c in m && AllAccepted(pb.accepts, c, WeightPayloads(rows)))
    ensures coll == Appended(m, c, WeightRecords(ctx, pb, rows[..n], next)) && coll.Keys == m.Keys
  {
    assert WeightPayloads(rows)[n] == rows[n].payload;
  }

  /**
   * The `WeightRecords` branch of `run`: create each mapped row's record and
   * try its first photo, counting the photos uploaded and those that failed.
   * A rejected create at row `n` ends the migration; the records created
   * before it stay.
   */
  method MigrateWeights(ctx: Context, noco: NocoDb, pb: PocketBase, c: string, rows: seq<MigrateMappers.WeightRow>)
    returns (r: Result<(nat, nat)>, ghost sent: seq<PbCall>, ghost stop: nat)
    requires pb.Valid() && Fetches(ctx, noco.files)
    modifies noco, pb
    ensures pb.Valid() && NocoKept(noco)
    ensures r.Success? ==>
      WeightsSoFar(ctx, pb, c, rows, |rows|, old(pb.collections), old(pb.nextId), pb.collections, pb.nextId, r.value.0, r.value.1)
    ensures r.Failure? ==>
      && stop < |rows| && !(c in old(pb.collections) && pb.accepts(c, rows[stop].payload))
      && WeightsPrefix(ctx, pb, c, rows, stop, old(pb.collections), old(pb.nextId), pb.collections, pb.nextId)
    ensures pb.calls == old(pb.calls) + sent && OnlyWrites(sent)
  {
    if c in pb.collections {
      assert pb.collections[c] + [] == pb.collections[c];
      assert pb.collections[c := pb.collections[c]] == pb.collections;
    }
    var uploaded, failed := 0, 0;
    sent := [];
    for i := 0 to |rows|
      invariant pb.Valid() && NocoKept(noco)
      invariant WeightsSoFar(ctx, pb, c, rows, i, old(pb.collections), old(pb.nextId), pb.collections, pb.nextId, uploaded, failed)
      invariant pb.calls == old(pb.calls) + sent && OnlyWrites(sent)
    {
      ghost var coll, nextId := pb.collections, pb.nextId;
      var out, more := MigrateWeightRow(ctx, noco, pb, c, rows[i], FallbackName(ctx.clock(i)));
      WritesGrow(old(pb.calls), sent, more);
      sent := sent + more;
      if out.Failure? {
        return Failure(out.error), sent, i;
      }
      WeightsStep(ctx, pb, c, rows, i, old(pb.collections), old(pb.nextId), coll, nextId, uploaded, failed, out.value);
      uploaded := uploaded + if out.value.Uploaded? then 1 else 0;
      failed := failed + if out.value.Failed? then 1 else 0;
    }
    return Success((uploaded, failed)), sent, 0;
  }
}
