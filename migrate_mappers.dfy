/**
 * Value coercion and the entity mappers of the migration
 * (scripts/migrate-nocodb-to-pocketbase.js): `optionalNumber`,
 * `compactObject`, the six `map*` functions that turn NocoDB rows into
 * PocketBase payloads, and the attachment helpers.
 */
module MigrateMappers {
  import opened Wrappers
  import opened Strings
  import opened Js
  import Seqs
  import Dicts

  // ---------------------------------------------------------------- coercion

  /** `optionalNumber`: null, undefined and `''` become null, and so does a non-finite `Number(value)`. */
  function OptionalNumber(host: Host, v: Value): (r: Value)
    ensures r.Null? || r.Num?
    ensures v.Null? || v.Undef? || v == Str("") ==> r == Null
    ensures v.Num? ==> r == v
    ensures r.Num? ==> ToNumber(host, v) == Some(r.n)
    ensures r.Null? && !(v.Null? || v.Undef? || v == Str("")) ==> ToNumber(host, v).None?
  {
    if v.Null? || v.Undef? || v == Str("") then Null
    else
      match ToNumber(host, v)
      case Some(n) => Num(n)
      case None => Null
  }

  /** The object literal handed to `compactObject`: its keys in order, with their values. */
  type Entries = seq<(string, Value)>

  /** The write `compactObject` performs for one entry: none when the value is undefined. */
  function Kept(e: (string, Value)): Option<(string, Value)> {
    if e.1.Undef? then None else Some(e)
  }

  /** The object `compactObject` returns. */
  function Compact(entries: Entries): Record {
    Dicts.Assign(Seqs.MapSeq(entries, Kept))
  }

  predicate DistinctKeys(entries: Entries) {
    forall i, j :: 0 <= i < j < |entries| ==> entries[i].0 != entries[j].0
  }

  /** `compactObject` keeps exactly the keys whose value is not undefined. */
  lemma CompactKeys(entries: Entries, k: string)
    ensures k in Compact(entries) <==> exists e :: e in entries && e.0 == k && !e.1.Undef?
  {
    var writes := Seqs.MapSeq(entries, Kept);
    Dicts.AssignKeys(writes, k);
    forall e | e in entries && e.0 == k && !e.1.Undef?
      ensures k in Compact(entries)
    {
      var i :| 0 <= i < |entries| && entries[i] == e;
      assert Dicts.Writes(writes[i], k);
    }
    if k in Compact(entries) {
      var i :| 0 <= i < |writes| && Dicts.Writes(writes[i], k);
      assert entries[i] in entries;
    }
  }

  /** No kept value is undefined. */
  lemma CompactNoUndefined(entries: Entries)
    ensures forall k :: k in Compact(entries) ==> !Compact(entries)[k].Undef?
  {
    forall k | k in Compact(entries)
      ensures !Compact(entries)[k].Undef?
    {
      Dicts.AssignValues(Seqs.MapSeq(entries, Kept), k);
    }
  }

  /** Every defined value comes through unchanged (keys of an object literal are distinct). */
  lemma CompactValue(entries: Entries, e: (string, Value))
    requires DistinctKeys(entries)
    requires e in entries && !e.1.Undef?
    ensures e.0 in Compact(entries) && Compact(entries)[e.0] == e.1
  {
    var writes := Seqs.MapSeq(entries, Kept);
    var i :| 0 <= i < |entries| && entries[i] == e;
    Dicts.AssignLast(writes, i, e.0, e.1);
  }

  /** `compactObject`: fills `out` in a loop with the entries whose value is not undefined. */
  method CompactObject(input: Entries) returns (out: Record)
    ensures out == Compact(input)
    ensures forall k :: k in out <==> exists e :: e in input && e.0 == k && !e.1.Undef?
    ensures forall k :: k in out ==> !out[k].Undef?
  {
    ghost var writes := Seqs.MapSeq(input, Kept);
    out := map[];
    var i := 0;
    while i < |input|
      invariant 0 <= i <= |input|
      invariant out == Dicts.Assign(writes[..i])
    {
      assert writes[..i + 1] == writes[..i] + [writes[i]];
      Dicts.AssignSnoc(writes[..i], writes[i]);
      var (key, value) := input[i];
      if !value.Undef? {
        out := out[key := value];
      }
      i := i + 1;
    }
    assert writes[..|input|] == writes;
    forall k ensures k in out <==> exists e :: e in input && e.0 == k && !e.1.Undef? {
      CompactKeys(input, k);
    }
    CompactNoUndefined(input);
  }

  // ----------------------------------------------------------------- fields

  /** `key: optionalNumber(row.key)`. */
  function NumberField(host: Host, row: Record, key: string): (string, Value) {
    (key, OptionalNumber(host, Get(row, key)))
  }

  /** The string `row.key ? String(row.key) : ''`. */
  function Text(host: Host, row: Record, key: string): string {
    if Truthy(Get(row, key)) then ToStr(host, Get(row, key)) else ""
  }

  /** `key: row.key ? String(row.key) : ''`. */
  function TextField(host: Host, row: Record, key: string): (string, Value) {
    (key, Str(Text(host, row, key)))
  }

  /** `key: row.key ? String(row.key) : undefined`. */
  function OptionalTextField(host: Host, row: Record, key: string): (string, Value) {
    (key, if Truthy(Get(row, key)) then Str(ToStr(host, Get(row, key))) else Undef)
  }

  predicate NumberOrNull(v: Value) {
    v.Null? || v.Num?
  }

  // ------------------------------------------------------------------ Users

  const UserTargetKeys: set<string> :=
    {"tdee", "target_calories", "target_carbs", "target_protein", "target_fat", "target_water"}

  function UserEntries(host: Host, row: Record): Entries {
    [NumberField(host, row, "tdee"), NumberField(host, row, "target_calories"),
     NumberField(host, row, "target_carbs"), NumberField(host, row, "target_protein"),
     NumberField(host, row, "target_fat"), NumberField(host, row, "target_water")]
  }

  function UserPayload(host: Host, row: Record): Record {
    Compact(UserEntries(host, row))
  }

  function UserMapper(host: Host): Record -> Record {
    row => UserPayload(host, row)
  }

  /** `mapUsers`. */
  function MapUsers(host: Host, rows: seq<Record>): (r: seq<Record>)
    ensures |r| == |rows|
  {
    Seqs.MapSeq(rows, UserMapper(host))
  }

  /** A user payload has the six target keys, each holding `optionalNumber` of the row's field. */
  lemma UserPayloadShape(host: Host, row: Record)
    ensures UserPayload(host, row).Keys == UserTargetKeys
    ensures forall k :: k in UserTargetKeys ==> UserPayload(host, row)[k] == OptionalNumber(host, Get(row, k))
  {
    var es := UserEntries(host, row);
    var p := UserPayload(host, row);
    assert DistinctKeys(es);
    forall k | k in UserTargetKeys
      ensures k in p && p[k] == OptionalNumber(host, Get(row, k))
    {
      CompactValue(es, NumberField(host, row, k));
    }
    forall k | k in p
      ensures k in UserTargetKeys
    {
      CompactKeys(es, k);
    }
  }

  /** `mapUsers` drops no row, and every payload holds the six keys, each a number or null. */
  lemma MapUsersShape(host: Host, rows: seq<Record>)
    ensures |MapUsers(host, rows)| == |rows|
    ensures forall i :: 0 <= i < |rows| ==>
      MapUsers(host, rows)[i].Keys == UserTargetKeys &&
      forall k :: k in UserTargetKeys ==> MapUsers(host, rows)[i][k] == OptionalNumber(host, Get(rows[i], k))
    ensures forall i, k :: 0 <= i < |rows| && k in MapUsers(host, rows)[i] ==> NumberOrNull(MapUsers(host, rows)[i][k])
  {
    forall i | 0 <= i < |rows| {
      UserPayloadShape(host, rows[i]);
    }
  }

  // ------------------------------------------------------------ FoodLibrary

  const FoodLibraryKeys: set<string> := {"name", "calories", "carbs", "protein", "fat", "unit", "category", "source"}

  /** `row.name ? String(row.name).trim() : ''`. */
  function FoodName(host: Host, row: Record): string {
    if Truthy(Get(row, "name")) then Trim(ToStr(host, Get(row, "name"))) else ""
  }

  function FoodLibraryEntries(host: Host, row: Record): Entries {
    [("name", Str(FoodName(host, row))),
     NumberField(host, row, "calories"), NumberField(host, row, "carbs"),
     NumberField(host, row, "protein"), NumberField(host, row, "fat"),
     OptionalTextField(host, row, "unit"), OptionalTextField(host, row, "category"),
     OptionalTextField(host, row, "source")]
  }

  function FoodLibraryPayload(host: Host, row: Record): Record {
    Compact(FoodLibraryEntries(host, row))
  }

  function FoodLibraryMapper(host: Host): Record -> Record {
    row => FoodLibraryPayload(host, row)
  }

  /** The `filter((row) => row.name)` of `mapFoodLibrary`. */
  predicate HasName(payload: Record) {
    Truthy(Get(payload, "name"))
  }

  /** `mapFoodLibrary`. */
  function MapFoodLibrary(host: Host, rows: seq<Record>): (r: seq<Record>)
    ensures |r| <= |rows|
  {
    Seqs.Filter(Seqs.MapSeq(rows, FoodLibraryMapper(host)), HasName)
  }

  /** A source row survives `mapFoodLibrary` when its name is not blank after trimming. */
  function KeepFoodLibrary(host: Host): Record -> bool {
    row => FoodName(host, row) != ""
  }

  lemma FoodLibraryName(host: Host, row: Record)
    ensures "name" in FoodLibraryPayload(host, row)
    ensures FoodLibraryPayload(host, row)["name"] == Str(FoodName(host, row))
    ensures HasName(FoodLibraryPayload(host, row)) == KeepFoodLibrary(host)(row)
  {
    CompactValue(FoodLibraryEntries(host, row), ("name", Str(FoodName(host, row))));
  }

  /**
   * A food-library payload: a trimmed name and four nutrient fields that are
   * numbers or null, plus each of unit, category and source exactly when the
   * row's field is truthy, and no other key.
   */
  lemma FoodLibraryPayloadShape(host: Host, row: Record)
    ensures var p := FoodLibraryPayload(host, row);
      && p.Keys <= FoodLibraryKeys
      && {"name", "calories", "carbs", "protein", "fat"} <= p.Keys
      && p["name"] == Str(FoodName(host, row))
      && (forall k :: k in {"calories", "carbs", "protein", "fat"} ==> p[k] == OptionalNumber(host, Get(row, k)))
      && (forall k :: k in {"unit", "category", "source"} ==>
            (k in p <==> Truthy(Get(row, k))) && (k in p ==> p[k] == Str(ToStr(host, Get(row, k)))))
  {
    FoodLibraryName(host, row);
    forall k | k in {"calories", "carbs", "protein", "fat"}
      ensures k in FoodLibraryPayload(host, row) && FoodLibraryPayload(host, row)[k] == OptionalNumber(host, Get(row, k))
    {
      FoodLibraryField(host, row, NumberField(host, row, k));
    }
    forall k | k in {"unit", "category", "source"}
      ensures k in FoodLibraryPayload(host, row) <==> Truthy(Get(row, k))
      ensures k in FoodLibraryPayload(host, row) ==> FoodLibraryPayload(host, row)[k] == Str(ToStr(host, Get(row, k)))
    {
      FoodLibraryFieldKey(host, row, k);
      if Truthy(Get(row, k)) {
        FoodLibraryField(host, row, OptionalTextField(host, row, k));
      }
    }
    forall k | k in FoodLibraryPayload(host, row)
      ensures k in FoodLibraryKeys
    {
      FoodLibraryFieldKey(host, row, k);
    }
  }

  lemma FoodLibraryField(host: Host, row: Record, e: (string, Value))
    requires e in FoodLibraryEntries(host, row) && !e.1.Undef?
    ensures e.0 in FoodLibraryPayload(host, row) && FoodLibraryPayload(host, row)[e.0] == e.1
  {
    var es := FoodLibraryEntries(host, row);
    assert DistinctKeys(es);
    CompactValue(es, e);
  }

  lemma FoodLibraryFieldKey(host: Host, row: Record, k: string)
    ensures k in FoodLibraryPayload(host, row) <==> exists e :: e in FoodLibraryEntries(host, row) && e.0 == k && !e.1.Undef?
  {
    CompactKeys(FoodLibraryEntries(host, row), k);
  }

  /**
   * `mapFoodLibrary` keeps, in order, exactly the rows whose trimmed name is
   * non-empty, one payload per such row.
   */
  lemma MapFoodLibraryFilters(host: Host, a: seq<Record>, b: seq<Record>, row: Record)
    ensures MapFoodLibrary(host, a + b) == MapFoodLibrary(host, a) + MapFoodLibrary(host, b)
    ensures MapFoodLibrary(host, [row]) == if KeepFoodLibrary(host)(row) then [FoodLibraryPayload(host, row)] else []
    ensures |MapFoodLibrary(host, a)| == Seqs.CountIf(a, KeepFoodLibrary(host))
  {
    var f := FoodLibraryMapper(host);
    Seqs.MapFilterConcat(a, b, f, HasName);
    Seqs.MapFilterSingle(row, f, HasName);
    FoodLibraryName(host, row);
    forall r | r in a ensures KeepFoodLibrary(host)(r) == HasName(f(r)) {
      FoodLibraryName(host, r);
    }
    Seqs.MapFilterLength(a, f, HasName, KeepFoodLibrary(host));
  }

  /** A name made only of whitespace is dropped. */
  lemma BlankNameDropped(host: Host, row: Record, s: string)
    requires Get(row, "name") == Str(s) && AllSpace(s)
    ensures MapFoodLibrary(host, [row]) == []
  {
    TrimEnds(s);
    MapFoodLibraryFilters(host, [], [], row);
  }

  // ------------------------------------------------- FoodRecords, Water, Exercise

  const FoodRecordKeys: set<string> := {"date", "mealType", "name", "amount", "calories", "carbs", "protein", "fat"}

  function FoodRecordEntries(host: Host, row: Record): Entries {
    [TextField(host, row, "date"), TextField(host, row, "mealType"), TextField(host, row, "name"),
     NumberField(host, row, "amount"), NumberField(host, row, "calories"), NumberField(host, row, "carbs"),
     NumberField(host, row, "protein"), NumberField(host, row, "fat")]
  }

  function FoodRecordPayload(host: Host, row: Record): Record {
    Compact(FoodRecordEntries(host, row))
  }

  function FoodRecordMapper(host: Host): Record -> Record {
    row => FoodRecordPayload(host, row)
  }

  /** The `filter((row) => row.date && row.mealType && row.name)` of `mapFoodRecords`. */
  predicate HasFoodRecordKey(payload: Record) {
    Truthy(Get(payload, "date")) && Truthy(Get(payload, "mealType")) && Truthy(Get(payload, "name"))
  }

  /** `mapFoodRecords`. */
  function MapFoodRecords(host: Host, rows: seq<Record>): (r: seq<Record>)
    ensures |r| <= |rows|
  {
    Seqs.Filter(Seqs.MapSeq(rows, FoodRecordMapper(host)), HasFoodRecordKey)
  }

  /** A source row survives `mapFoodRecords` when its date, meal type and name are all non-empty. */
  function KeepFoodRecord(host: Host): Record -> bool {
    row => Text(host, row, "date") != "" && Text(host, row, "mealType") != "" && Text(host, row, "name") != ""
  }

  /** A food-record payload: the three text fields and five numeric fields, and no other key. */
  lemma FoodRecordPayloadShape(host: Host, row: Record)
    ensures var p := FoodRecordPayload(host, row);
      && p.Keys == FoodRecordKeys
      && (forall k :: k in {"date", "mealType", "name"} ==> p[k] == Str(Text(host, row, k)))
      && (forall k :: k in {"amount", "calories", "carbs", "protein", "fat"} ==> p[k] == OptionalNumber(host, Get(row, k)))
  {
    FoodRecordTexts(host, row);
    FoodRecordNumbers(host, row);
    forall k | k in FoodRecordPayload(host, row)
      ensures k in FoodRecordKeys
    {
      CompactKeys(FoodRecordEntries(host, row), k);
    }
  }

  lemma FoodRecordTexts(host: Host, row: Record)
    ensures forall k :: k in {"date", "mealType", "name"} ==>
      k in FoodRecordPayload(host, row) && FoodRecordPayload(host, row)[k] == Str(Text(host, row, k))
  {
    forall k | k in {"date", "mealType", "name"}
      ensures k in FoodRecordPayload(host, row) && FoodRecordPayload(host, row)[k] == Str(Text(host, row, k))
    {
      FoodRecordField(host, row, TextField(host, row, k));
    }
  }

  lemma FoodRecordNumbers(host: Host, row: Record)
    ensures forall k :: k in {"amount", "calories", "carbs", "protein", "fat"} ==>
      k in FoodRecordPayload(host, row) && FoodRecordPayload(host, row)[k] == OptionalNumber(host, Get(row, k))
  {
    forall k | k in {"amount", "calories", "carbs", "protein", "fat"}
      ensures k in FoodRecordPayload(host, row) && FoodRecordPayload(host, row)[k] == OptionalNumber(host, Get(row, k))
    {
      FoodRecordField(host, row, NumberField(host, row, k));
    }
  }

  lemma FoodRecordField(host: Host, row: Record, e: (string, Value))
    requires e in FoodRecordEntries(host, row) && !e.1.Undef?
    ensures e.0 in FoodRecordPayload(host, row) && FoodRecordPayload(host, row)[e.0] == e.1
  {
    var es := FoodRecordEntries(host, row);
    assert DistinctKeys(es);
    CompactValue(es, e);
  }

  lemma FoodRecordKeep(host: Host, row: Record)
    ensures HasFoodRecordKey(FoodRecordPayload(host, row)) == KeepFoodRecord(host)(row)
  {
    var es := FoodRecordEntries(host, row);
    assert DistinctKeys(es);
    CompactValue(es, TextField(host, row, "date"));
    CompactValue(es, TextField(host, row, "mealType"));
    CompactValue(es, TextField(host, row, "name"));
  }

  /**
   * `mapFoodRecords` keeps, in order, exactly the rows with non-empty date,
   * meal type and name.
   */
  lemma MapFoodRecordsFilters(host: Host, a: seq<Record>, b: seq<Record>, row: Record)
    ensures MapFoodRecords(host, a + b) == MapFoodRecords(host, a) + MapFoodRecords(host, b)
    ensures MapFoodRecords(host, [row]) == if KeepFoodRecord(host)(row) then [FoodRecordPayload(host, row)] else []
    ensures |MapFoodRecords(host, a)| == Seqs.CountIf(a, KeepFoodRecord(host))
  {
    var f := FoodRecordMapper(host);
    Seqs.MapFilterConcat(a, b, f, HasFoodRecordKey);
    Seqs.MapFilterSingle(row, f, HasFoodRecordKey);
    FoodRecordKeep(host, row);
    forall r | r in a ensures KeepFoodRecord(host)(r) == HasFoodRecordKey(f(r)) {
      FoodRecordKeep(host, r);
    }
    Seqs.MapFilterLength(a, f, HasFoodRecordKey, KeepFoodRecord(host));
  }

  /** A payload with a date and one numeric field, as water, exercise and weight records are. */
  function DatedEntries(host: Host, row: Record, numberKey: string): Entries {
    [TextField(host, row, "date"), NumberField(host, row, numberKey)]
  }

  function DatedPayload(host: Host, row: Record, numberKey: string): Record {
    Compact(DatedEntries(host, row, numberKey))
  }

  function DatedMapper(host: Host, numberKey: string): Record -> Record {
    row => DatedPayload(host, row, numberKey)
  }

  /** The `filter((row) => row.date)` of the water, exercise and weight mappers. */
  predicate HasDate(payload: Record) {
    Truthy(Get(payload, "date"))
  }

  /** `mapWaterRecords`. */
  function MapWaterRecords(host: Host, rows: seq<Record>): (r: seq<Record>)
    ensures |r| <= |rows|
  {
    Seqs.Filter(Seqs.MapSeq(rows, DatedMapper(host, "amount")), HasDate)
  }

  /** `mapExerciseRecords`. */
  function MapExerciseRecords(host: Host, rows: seq<Record>): (r: seq<Record>)
    ensures |r| <= |rows|
  {
    Seqs.Filter(Seqs.MapSeq(rows, DatedMapper(host, "calories")), HasDate)
  }

  /** A source row survives the date-keyed mappers when its date is non-empty. */
  function KeepDated(host: Host): Record -> bool {
    row => Text(host, row, "date") != ""
  }

  /** A water, exercise or weight payload: the date and the one numeric field, and no other key. */
  lemma DatedPayloadShape(host: Host, row: Record, numberKey: string)
    requires numberKey != "date"
    ensures var p := DatedPayload(host, row, numberKey);
      && p.Keys == {"date", numberKey}
      && p["date"] == Str(Text(host, row, "date"))
      && p[numberKey] == OptionalNumber(host, Get(row, numberKey))
      && HasDate(p) == KeepDated(host)(row)
  {
    var es := DatedEntries(host, row, numberKey);
    CompactValue(es, es[0]);
    CompactValue(es, es[1]);
    forall k | k in Compact(es)
      ensures k in {"date", numberKey}
    {
      CompactKeys(es, k);
    }
  }

  /** The date-keyed mappers keep, in order, exactly the rows with a non-empty date. */
  lemma DatedFilters<T>(host: Host, f: Record -> T, has: T -> bool, a: seq<Record>, b: seq<Record>, row: Record)
    requires forall r :: has(f(r)) == KeepDated(host)(r)
    ensures Seqs.Filter(Seqs.MapSeq(a + b, f), has) == Seqs.Filter(Seqs.MapSeq(a, f), has) + Seqs.Filter(Seqs.MapSeq(b, f), has)
    ensures Seqs.Filter(Seqs.MapSeq([row], f), has) == if KeepDated(host)(row) then [f(row)] else []
    ensures |Seqs.Filter(Seqs.MapSeq(a, f), has)| == Seqs.CountIf(a, KeepDated(host))
  {
    Seqs.MapFilterConcat(a, b, f, has);
    Seqs.MapFilterSingle(row, f, has);
    Seqs.MapFilterLength(a, f, has, KeepDated(host));
  }

  /** `mapWaterRecords` keeps, in order, exactly the rows with a non-empty date. */
  lemma MapWaterRecordsFilters(host: Host, a: seq<Record>, b: seq<Record>, row: Record)
    ensures MapWaterRecords(host, a + b) == MapWaterRecords(host, a) + MapWaterRecords(host, b)
    ensures MapWaterRecords(host, [row]) == if KeepDated(host)(row) then [DatedPayload(host, row, "amount")] else []
    ensures |MapWaterRecords(host, a)| == Seqs.CountIf(a, KeepDated(host))
  {
    forall r ensures HasDate(DatedMapper(host, "amount")(r)) == KeepDated(host)(r) {
      DatedPayloadShape(host, r, "amount");
    }
    DatedFilters(host, DatedMapper(host, "amount"), HasDate, a, b, row);
  }

  /** `mapExerciseRecords` keeps, in order, exactly the rows with a non-empty date. */
  lemma MapExerciseRecordsFilters(host: Host, a: seq<Record>, b: seq<Record>, row: Record)
    ensures MapExerciseRecords(host, a + b) == MapExerciseRecords(host, a) + MapExerciseRecords(host, b)
    ensures MapExerciseRecords(host, [row]) == if KeepDated(host)(row) then [DatedPayload(host, row, "calories")] else []
    ensures |MapExerciseRecords(host, a)| == Seqs.CountIf(a, KeepDated(host))
  {
    forall r ensures HasDate(DatedMapper(host, "calories")(r)) == KeepDated(host)(r) {
      DatedPayloadShape(host, r, "calories");
    }
    DatedFilters(host, DatedMapper(host, "calories"), HasDate, a, b, row);
  }

  // ------------------------------------------------------------ WeightRecords

  /** An element of `mapWeightRecords`: the payload and the parsed attachment list. */
  datatype WeightRow = WeightRow(payload: Record, attachments: seq<Value>)

  function WeightRowOf(host: Host, row: Record): WeightRow {
    WeightRow(DatedPayload(host, row, "weight"), ParseAttachments(host, Get(row, "photo")))
  }

  function WeightMapper(host: Host): Record -> WeightRow {
    row => WeightRowOf(host, row)
  }

  predicate WeightRowHasDate(w: WeightRow) {
    HasDate(w.payload)
  }

  /** `mapWeightRecords`. */
  function MapWeightRecords(host: Host, rows: seq<Record>): (r: seq<WeightRow>)
    ensures |r| <= |rows|
  {
    Seqs.Filter(Seqs.MapSeq(rows, WeightMapper(host)), WeightRowHasDate)
  }

  /** `mapWeightRecords` keeps, in order, exactly the rows with a non-empty date. */
  lemma MapWeightRecordsFilters(host: Host, a: seq<Record>, b: seq<Record>, row: Record)
    ensures MapWeightRecords(host, a + b) == MapWeightRecords(host, a) + MapWeightRecords(host, b)
    ensures MapWeightRecords(host, [row]) == if KeepDated(host)(row) then [WeightRowOf(host, row)] else []
    ensures |MapWeightRecords(host, a)| == Seqs.CountIf(a, KeepDated(host))
  {
    forall r ensures WeightRowHasDate(WeightMapper(host)(r)) == KeepDated(host)(r) {
      DatedPayloadShape(host, r, "weight");
    }
    DatedFilters(host, WeightMapper(host), WeightRowHasDate, a, b, row);
  }

  // -------------------------------------------------------------- attachments

  /** `parseNocoAttachments`: always an array. */
  function ParseAttachments(host: Host, v: Value): (r: seq<Value>)
    ensures !Truthy(v) ==> r == []
    ensures v.Arr? ==> r == v.items
    ensures v.Str? && v.s != "" ==> r == (match host.json(v.s) case Some(Arr(items)) => items case _ => [])
    ensures !v.Arr? && !v.Str? ==> r == []
  {
    if !Truthy(v) then []
    else if v.Arr? then v.items
    else if v.Str? then
      match host.json(v.s)
      case Some(Arr(items)) => items
      case _ => []
    else []
  }

  /** `/^https?:\/\//.test(raw)`. */
  predicate IsHttpUrl(s: string) {
    StartsWith(s, "http://") || StartsWith(s, "https://")
  }

  /** `${base}${raw.startsWith('/') ? '' : '/'}${raw}`: exactly one slash between base and path. */
  function JoinUrl(base: string, raw: string): (r: string)
    ensures |r| > |base| && r[..|base|] == base && r[|base|] == '/'
    ensures r[|base| + 1..] == if StartsWith(raw, "/") then raw[1..] else raw
  {
    base + (if StartsWith(raw, "/") then "" else "/") + raw
  }

  /**
   * `resolveAttachmentUrl` of the migration: the first truthy of `url`,
   * `signedPath`, `path`; absolute http(s) values unchanged, others joined to
   * the NocoDB URL. Reading a field of null or undefined, and `startsWith` on
   * a value that is not a string, throw: those are failures.
   */
  function ResolveAttachmentUrl(host: Host, baseUrl: string, attachment: Value): Result<Option<string>> {
    if attachment.Null? || attachment.Undef? then Failure("TypeError: Cannot read properties of " + ToStr(host, attachment))
    else
      var candidates := [Prop(attachment, "url"), Prop(attachment, "signedPath"), Prop(attachment, "path")];
      var raw := FirstTruthy(candidates);
      assert !Truthy(raw) <==> !Truthy(candidates[0]) && !Truthy(candidates[1]) && !Truthy(candidates[2]);
      if !Truthy(raw) then Success(None)
      else if IsHttpUrl(ToStr(host, raw)) then Success(Some(ToStr(host, raw)))
      else if !raw.Str? then Failure("TypeError: raw.startsWith is not a function")
      else Success(Some(JoinUrl(baseUrl, raw.s)))
  }

  /**
   * Resolving fails exactly when the attachment is null or undefined, or its
   * path is truthy but neither a string nor an http(s) URL; it resolves to
   * nothing exactly when none of the three fields is set; a string path
   * comes back unchanged when it is an http(s) URL and is otherwise joined
   * to the NocoDB URL; any other truthy value that reads as an http(s) URL
   * comes back as that text; and a URL it produces is absolute or lies
   * under the NocoDB URL.
   */
  lemma ResolveAttachmentUrlCases(host: Host, baseUrl: string, attachment: Value)
    ensures var r := ResolveAttachmentUrl(host, baseUrl, attachment);
      && (r.Failure? <==> (attachment.Null? || attachment.Undef? ||
        var raw := FirstTruthy([Prop(attachment, "url"), Prop(attachment, "signedPath"), Prop(attachment, "path")]);
        Truthy(raw) && !raw.Str? && !IsHttpUrl(ToStr(host, raw))))
      && (r == Success(None) <==> (!attachment.Null? && !attachment.Undef? &&
        !Truthy(Prop(attachment, "url")) && !Truthy(Prop(attachment, "signedPath")) && !Truthy(Prop(attachment, "path"))))
      && (r.Success? && r.value.Some? ==> IsHttpUrl(r.value.value) || StartsWith(r.value.value, baseUrl + "/"))
    ensures var raw := FirstTruthy([Prop(attachment, "url"), Prop(attachment, "signedPath"), Prop(attachment, "path")]);
      !attachment.Null? && !attachment.Undef? && Truthy(raw) && raw.Str? ==>
        ResolveAttachmentUrl(host, baseUrl, attachment) == Success(Some(if IsHttpUrl(raw.s) then raw.s else JoinUrl(baseUrl, raw.s)))
    ensures var raw := FirstTruthy([Prop(attachment, "url"), Prop(attachment, "signedPath"), Prop(attachment, "path")]);
      !attachment.Null? && !attachment.Undef? && Truthy(raw) && IsHttpUrl(ToStr(host, raw)) ==>
        ResolveAttachmentUrl(host, baseUrl, attachment) == Success(Some(ToStr(host, raw)))
  {
    if !attachment.Null? && !attachment.Undef? {
      var candidates := [Prop(attachment, "url"), Prop(attachment, "signedPath"), Prop(attachment, "path")];
      var raw := FirstTruthy(candidates);
      assert !Truthy(raw) <==> !Truthy(candidates[0]) && !Truthy(candidates[1]) && !Truthy(candidates[2]);
      if Truthy(raw) && !IsHttpUrl(ToStr(host, raw)) && raw.Str? {
        var u := JoinUrl(baseUrl, raw.s);
        assert u[..|baseUrl| + 1] == baseUrl + "/";
      }
    }
  }
}
