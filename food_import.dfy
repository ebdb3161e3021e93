/**
 * The food-library import (scripts/import-food-library-all.js): read the
 * nutrition tables from a directory of JSON files, turn each named item into
 * a FoodLibrary row, then empty the NocoDB FoodLibrary table and insert the
 * rows in batches of 100.
 */
module FoodImport {
  import opened Wrappers
  import opened Strings
  import opened Js
  import opened Stores
  import Seqs
  import Dicts
  import MigrateLoops

  const RepoRoot: string := "/Users/weiwang/Projects/keepfit"
  const EnvPath: string := RepoRoot + "/quantified-health/.env.local"
  const DataDir: string := RepoRoot + "/.codex/china-food-composition-data/json_data_vision_251206_Qwen2-5-VL-72B-Instruct"
  const BaseTitle: string := "keepfit"
  const TableTitle: string := "FoodLibrary"
  /** The book the data comes from, as stored in every row's `source`. */
  const Source: string := "中国食物成分表标准版（第6版）整理数据（全量）"
  const Unit: string := "100g"

  // ---------------------------------------------------------------- loadEnv

  /**
   * The write one line performs: the text around the first `=`, each part
   * trimmed; nothing when `=` is absent or the first character. The line
   * itself is not trimmed first and `#` has no special meaning.
   */
  function LineEntry(line: string): Option<(string, string)> {
    EntryAt(line, IndexOf(line, '='))
  }

  /** The write of a line whose first `=` is at `idx` (-1 when there is none). */
  function EntryAt(line: string, idx: int): Option<(string, string)>
    requires -1 <= idx < |line|
  {
    if idx <= 0 then None else Some((Trim(line[..idx]), Trim(line[idx + 1..])))
  }

  predicate NonEmpty(line: string) {
    line != ""
  }

  /** `raw.split(/\n+/).filter(Boolean)`: the non-empty pieces between newlines. */
  function Lines(raw: string): seq<string> {
    Seqs.Filter(Split(raw, '\n'), NonEmpty)
  }

  /** The dictionary `loadEnv` builds. */
  function EnvOf(raw: string): map<string, string> {
    Dicts.Assign(Seqs.MapSeq(Lines(raw), LineEntry))
  }

  /** One iteration of the loop of `loadEnv`: `env[key] = value` for a line with `=` after its first character. */
  method ApplyLine(env: map<string, string>, line: string) returns (next: map<string, string>)
    ensures LineEntry(line).Some? ==> next == env[LineEntry(line).value.0 := LineEntry(line).value.1]
    ensures LineEntry(line).None? ==> next == env
  {
    var e := ReadLine(line);
    next := env;
    if e.Some? {
      next := env[e.value.0 := e.value.1];
    }
  }

  /** The key and value a line writes, if any. */
  method ReadLine(line: string) returns (e: Option<(string, string)>)
    ensures e == LineEntry(line)
    ensures e.None? <==> line == "" || line[0] == '=' || '=' !in line
    ensures e.Some? ==> exists idx :: (0 < idx < |line| && line[idx] == '=' && '=' !in line[..idx]
      && e.value == (Trim(line[..idx]), Trim(line[idx + 1..])))
  {
    var idx := IndexOf(line, '=');
    if idx <= 0 {
      return None;
    }
    assert LineEntry(line) == EntryAt(line, idx);
    assert EntryAt(line, idx) == Some((Trim(line[..idx]), Trim(line[idx + 1..])));
    var key := Trim(line[..idx]);
    var value := Trim(line[idx + 1..]);
    e := Some((key, value));
  }

  /** `loadEnv` on the text of the file. */
  method LoadEnv(raw: string) returns (env: map<string, string>)
    ensures env == EnvOf(raw)
  {
    var lines := Lines(raw);
    env := map[];
    for i := 0 to |lines|
      invariant env == Dicts.Assign(Seqs.MapSeq(lines[..i], LineEntry))
    {
      Dicts.AssignMapNext(lines, i, LineEntry);
      env := ApplyLine(env, lines[i]);
    }
    assert lines[..|lines|] == lines;
  }

  /**
   * A key is set exactly when some line writes it, and then holds the value
   * of the last line that does; no key holds `=`.
   */
  lemma EnvEntries(raw: string, k: string)
    ensures k in EnvOf(raw) <==> exists i :: 0 <= i < |Lines(raw)| && Dicts.Writes(LineEntry(Lines(raw)[i]), k)
    ensures k in EnvOf(raw) ==> '=' !in k
    ensures k in EnvOf(raw) ==> exists i :: (0 <= i < |Lines(raw)| && LineEntry(Lines(raw)[i]) == Some((k, EnvOf(raw)[k]))
      && forall j :: i < j < |Lines(raw)| ==> !Dicts.Writes(LineEntry(Lines(raw)[j]), k))
  {
    Dicts.AssignMapEntries(Lines(raw), LineEntry, k);
    if k in EnvOf(raw) {
      var i :| (0 <= i < |Lines(raw)| && LineEntry(Lines(raw)[i]) == Some((k, EnvOf(raw)[k]))
        && forall j :: i < j < |Lines(raw)| ==> !Dicts.Writes(LineEntry(Lines(raw)[j]), k));
      var line := Lines(raw)[i];
      TrimKeepsOut(line[..IndexOf(line, '=')], '=');
    }
  }

  /** Every line is non-empty and holds no newline. */
  lemma LinesShape(raw: string)
    ensures forall i :: 0 <= i < |Lines(raw)| ==> Lines(raw)[i] != "" && '\n' !in Lines(raw)[i]
  {
    SplitPieces(raw, '\n');
    forall i | 0 <= i < |Lines(raw)| ensures Lines(raw)[i] != "" && '\n' !in Lines(raw)[i] {
      assert Lines(raw)[i] in Lines(raw);
    }
  }

  /** Unlike the migration's parser, a `#` line with an `=` is a definition. */
  lemma EnvKeepsComments()
    ensures LineEntry("#A=x") == Some(("#A", "x"))
  {
    assert IndexOf("#A=x", '=') == 2;
    assert "#A=x"[..2] == "#A" && "#A=x"[3..] == "x";
    TrimUnpadded("#A");
    TrimUnpadded("x");
  }

  /** A line whose key is blank defines the empty key; one without `=` or starting with it defines nothing. */
  lemma EnvBlankKey()
    ensures LineEntry(" =x") == Some(("", "x"))
    ensures LineEntry("=x") == None && LineEntry("x") == None
  {
    assert IndexOf(" =x", '=') == 1;
    assert " =x"[..1] == " " && " =x"[2..] == "x";
    TrimUnpadded("x");
    TrimEnds(" ");
  }

  // --------------------------------------------------------------- parseNum

  /** The values that stand for "no data" in the tables. */
  predicate Sentinel(s: string) {
    s == "" || s == "\U{2014}" || s == "-" || s == "Tr"
  }

  /** `String(value ?? '').trim()`. */
  function NumText(host: Host, v: Value): (r: string)
    ensures v.Null? || v.Undef? ==> r == ""
  {
    Trim(ToStr(host, if v.Null? || v.Undef? then Str("") else v))
  }

  /** `parseNum` once the text is known. */
  function ParseText(host: Host, s: string): (r: Value)
    ensures r.Null? <==> Sentinel(s) || host.parse(s).None?
    ensures r.Num? ==> host.parse(s) == Some(r.n)
  {
    if Sentinel(s) then Null
    else
      match host.parse(s)
      case Some(n) => Num(n)
      case None => Null
  }

  /** `parseNum`: a sentinel, or text that is not a finite number, gives null. */
  function ParseNum(host: Host, v: Value): (r: Value)
    ensures r.Null? || r.Num?
    ensures v.Null? || v.Undef? ==> r == Null
    ensures r.Null? <==> Sentinel(NumText(host, v)) || host.parse(NumText(host, v)).None?
    ensures r.Num? ==> host.parse(NumText(host, v)) == Some(r.n)
  {
    ParseText(host, NumText(host, v))
  }

  /** The sentinels are recognised with surrounding blanks, whatever `Number` would make of them. */
  lemma ParseNumSentinels(host: Host, s: string, pad: string)
    requires Sentinel(s) && AllSpace(pad)
    ensures ParseNum(host, Str(pad + s + pad)) == Null
  {
    SentinelEnds(s);
    TrimPadded(pad, s, pad);
    assert NumText(host, Str(pad + s + pad)) == Trim(pad + s + pad);
  }

  lemma SentinelEnds(s: string)
    requires Sentinel(s)
    ensures s != [] ==> !IsSpace(s[0]) && !IsSpace(s[|s| - 1])
  {
    if s == "Tr" {
      assert s[0] == 'T' && s[1] == 'r';
    }
  }

  // ---------------------------------------------------------- parseCategory

  /** The characters `.` does not match in a JavaScript regular expression. */
  predicate LineTerminator(c: char) {
    c == '\n' || c == '\r' || c == '\U{2028}' || c == '\U{2029}'
  }

  /**
   * The lazy `(.+?)-` of the pattern: the first `-` after at least one
   * character that leaves at least one character for `(.+)`.
   */
  function LazyDash(m: string, k: nat): (r: Option<nat>)
    requires k >= 1
    ensures r.Some? ==> k <= r.value && 1 <= r.value < |m| - 1 && m[r.value] == '-'
    ensures r.Some? ==> forall j :: k <= j < r.value ==> m[j] != '-'
    ensures r.None? ==> forall j :: k <= j < |m| - 1 ==> m[j] != '-'
    decreases |m| - k
  {
    if k + 1 >= |m| then None
    else if m[k] == '-' then Some(k)
    else LazyDash(m, k + 1)
  }

  /** `fileName.match(/^merged_(.+?)-(.+)\.json$/)`: the two groups. */
  function CategoryMatch(f: string): Option<(string, string)> {
    if !(StartsWith(f, "merged_") && EndsWith(f, ".json") && |f| >= 12) then None
    else
      var m := f[7..|f| - 5];
      if exists i :: 0 <= i < |m| && LineTerminator(m[i]) then None
      else
        match LazyDash(m, 1)
        case None => None
        case Some(k) => Some((m[..k], m[k + 1..]))
  }

  /** `parseCategory`. */
  function ParseCategory(f: string): string {
    match CategoryMatch(f)
    case Some(g) => g.0 + "-" + g.1
    case None => if EndsWith(f, ".json") then f[..|f| - 5] else f
  }

  /**
   * A matching name loses exactly its `merged_` prefix and `.json` suffix;
   * any other name only a trailing `.json`.
   */
  lemma ParseCategoryStrips(f: string)
    ensures CategoryMatch(f).Some? ==> "merged_" + ParseCategory(f) + ".json" == f
    ensures CategoryMatch(f).Some? ==> exists k :: 0 < k < |ParseCategory(f)| - 1 && ParseCategory(f)[k] == '-'
    ensures CategoryMatch(f).None? && EndsWith(f, ".json") ==> ParseCategory(f) + ".json" == f
    ensures CategoryMatch(f).None? && !EndsWith(f, ".json") ==> ParseCategory(f) == f
  {
    if CategoryMatch(f).Some? {
      var m := f[7..|f| - 5];
      var k := LazyDash(m, 1).value;
      assert m[..k] + "-" + m[k + 1..] == m;
      Seqs.Slices3(f, 7, |f| - 5);
      assert ParseCategory(f)[k] == '-';
    } else if EndsWith(f, ".json") {
      Seqs.Slices2(f, |f| - 5);
    }
  }

  /** A name of the form `merged_<a>-<b>.json` is recognised. */
  lemma CategoryOfMerged(a: string, b: string)
    requires a != "" && b != "" && '-' !in a
    requires forall i :: 0 <= i < |a + "-" + b| ==> !LineTerminator((a + "-" + b)[i])
    ensures ParseCategory("merged_" + a + "-" + b + ".json") == a + "-" + b
  {
    var f := "merged_" + a + "-" + b + ".json";
    var m := a + "-" + b;
    assert f[7..|f| - 5] == m;
    assert f[..7] == "merged_" && f[|f| - 5..] == ".json";
    assert m[|a|] == '-';
    assert forall j :: 1 <= j < |a| ==> m[j] == a[j];
    assert LazyDash(m, 1) == Some(|a|) by {
      LazyDashFinds(m, 1, |a|);
    }
    assert m[..|a|] == a && m[|a| + 1..] == b;
  }

  lemma {:induction false} LazyDashFinds(m: string, k: nat, d: nat)
    requires 1 <= k <= d < |m| - 1 && m[d] == '-'
    requires forall j :: k <= j < d ==> m[j] != '-'
    ensures LazyDash(m, k) == Some(d)
    decreases d - k
  {
    if k < d {
      LazyDashFinds(m, k + 1, d);
    }
  }

  // ------------------------------------------------------------ buildAllRows

  /** `String(item.foodName ?? '').trim()`. */
  function ItemName(host: Host, item: Value): string {
    var v := Prop(item, "foodName");
    Trim(ToStr(host, if v.Null? || v.Undef? then Str("") else v))
  }

  const RowKeys: set<string> := {"name", "calories", "carbs", "protein", "fat", "unit", "category", "source"}

  /** The row for a name, the four nutrient values and a category. */
  function RowOf(name: string, calories: Value, carbs: Value, protein: Value, fat: Value, category: string): Record {
    map["name" := Str(name),
        "calories" := calories,
        "carbs" := carbs,
        "protein" := protein,
        "fat" := fat,
        "unit" := Str(Unit),
        "category" := Str(category),
        "source" := Str(Source)]
  }

  /** The row pushed for a named item. */
  function FoodRow(host: Host, item: Value, category: string): Record {
    RowOf(ItemName(host, item),
      ParseNum(host, Prop(item, "energyKCal")), ParseNum(host, Prop(item, "CHO")),
      ParseNum(host, Prop(item, "protein")), ParseNum(host, Prop(item, "fat")),
      category)
  }

  /** The `TypeError` of reading `foodName` of null or undefined. */
  function NoNameError(item: Value): string {
    "Cannot read properties of " + (if item.Null? then "null" else "undefined") + " (reading 'foodName')"
  }

  /**
   * Running `f` on each element in order and concatenating what it returns,
   * the first failure stopping the run (a `for` loop that pushes and may
   * throw).
   */
  function Collect<T, U>(f: T -> Result<seq<U>>, xs: seq<T>): Result<seq<U>> {
    if xs == [] then Success([])
    else
      var prev := Collect(f, xs[..|xs| - 1]);
      if prev.Failure? then prev
      else
        var last := f(xs[|xs| - 1]);
        if last.Failure? then last else Success(prev.value + last.value)
  }

  lemma CollectSnoc<T, U>(f: T -> Result<seq<U>>, xs: seq<T>, x: T)
    ensures Collect(f, xs + [x]) ==
      var prev := Collect(f, xs);
      if prev.Failure? then prev
      else
        var last := f(x);
        if last.Failure? then last else Success(prev.value + last.value)
  {
    assert (xs + [x])[..|xs|] == xs;
  }

  /** Once a prefix fails, the whole run fails the same way. */
  lemma {:induction false} CollectFails<T, U>(f: T -> Result<seq<U>>, xs: seq<T>, i: nat)
    requires i <= |xs| && Collect(f, xs[..i]).Failure?
    ensures Collect(f, xs) == Collect(f, xs[..i])
    decreases |xs|
  {
    if i < |xs| {
      var n := |xs| - 1;
      assert xs[..n][..i] == xs[..i];
      CollectFails(f, xs[..n], i);
    } else {
      assert xs[..i] == xs;
    }
  }

  /** One more element of a run that has succeeded so far. */
  lemma CollectStep<T, U>(f: T -> Result<seq<U>>, xs: seq<T>, j: nat, rows: seq<U>)
    requires j < |xs| && Collect(f, xs[..j]) == Success(rows)
    ensures f(xs[j]).Success? ==> Collect(f, xs[..j + 1]) == Success(rows + f(xs[j]).value)
    ensures f(xs[j]).Failure? ==> Collect(f, xs) == f(xs[j])
  {
    assert xs[..j + 1][..j] == xs[..j];
    if f(xs[j]).Failure? {
      CollectFails(f, xs, j + 1);
    }
  }

  /**
   * The row an item gets: reading `foodName` of null or undefined throws,
   * and an item whose trimmed name is empty gets none.
   */
  function ItemRow(host: Host, category: string): Value -> Result<seq<Record>> {
    (item: Value) =>
      if item.Null? || item.Undef? then Failure(NoNameError(item))
      else if ItemName(host, item) == "" then Success([])
      else Success([FoodRow(host, item, category)])
  }

  /** The rows pushed for one file's items. */
  function ItemRows(host: Host, category: string, items: seq<Value>): Result<seq<Record>> {
    Collect(ItemRow(host, category), items)
  }

  /**
   * The rows of one file: `JSON.parse` must succeed; an array gives its
   * items' rows, a string (iterated by character, none of which has a
   * `foodName`) gives none, and anything else cannot be iterated.
   */
  function FileRows(host: Host, file: (string, string)): Result<seq<Record>> {
    match host.json(file.1)
    case None => Failure("Unexpected token in JSON: " + file.0)
    case Some(v) =>
      if v.Arr? then ItemRows(host, ParseCategory(file.0), v.items)
      else if v.Str? then Success([])
      else Failure("arr is not iterable")
  }

  function FileReader(host: Host): ((string, string)) -> Result<seq<Record>> {
    (file: (string, string)) => FileRows(host, file)
  }

  predicate IsJsonFile(file: (string, string)) {
    EndsWith(file.0, ".json")
  }

  /** `readdirSync(...).filter((file) => file.endsWith('.json'))`. */
  function JsonFiles(dir: seq<(string, string)>): seq<(string, string)> {
    Seqs.Filter(dir, IsJsonFile)
  }

  /** What `buildAllRows` returns for the directory listing `dir` (name and contents, in collation order). */
  function AllRows(host: Host, dir: seq<(string, string)>): Result<seq<Record>> {
    Collect(FileReader(host), JsonFiles(dir))
  }

  /** The inner loop of `buildAllRows`: the rows of one file's items. */
  method PushItemRows(host: Host, category: string, items: seq<Value>) returns (r: Result<seq<Record>>)
    ensures r == ItemRows(host, category, items)
  {
    var rows: seq<Record> := [];
    for j := 0 to |items|
      invariant Collect(ItemRow(host, category), items[..j]) == Success(rows)
    {
      CollectStep(ItemRow(host, category), items, j, rows);
      var item := items[j];
      if item.Null? || item.Undef? {
        return Failure(NoNameError(item));
      }
      var name := ItemName(host, item);
      if name == "" {
        assert rows + [] == rows;
        continue;
      }
      rows := rows + [FoodRow(host, item, category)];
    }
    assert items[..|items|] == items;
    return Success(rows);
  }

  /** `buildAllRows`: for each `.json` file, push a row per named item. */
  method BuildAllRows(host: Host, dir: seq<(string, string)>) returns (r: Result<seq<Record>>)
    ensures r == AllRows(host, dir)
  {
    var files := JsonFiles(dir);
    var rows: seq<Record> := [];
    for i := 0 to |files|
      invariant Collect(FileReader(host), files[..i]) == Success(rows)
    {
      CollectStep(FileReader(host), files, i, rows);
      assert FileReader(host)(files[i]) == FileRows(host, files[i]);
      var category := ParseCategory(files[i].0);
      var parsed := host.json(files[i].1);
      if parsed.None? {
        return Failure("Unexpected token in JSON: " + files[i].0);
      }
      var arr := parsed.value;
      if arr.Str? {
        assert rows + [] == rows;
        continue;
      }
      if !arr.Arr? {
        return Failure("arr is not iterable");
      }
      var itemRows := PushItemRows(host, category, arr.items);
      if itemRows.Failure? {
        return Failure(itemRows.error);
      }
      rows := rows + itemRows.value;
    }
    assert files[..|files|] == files;
    return Success(rows);
  }

  /** Every element of a successful run comes from the step of one input. */
  lemma {:induction false} CollectFrom<T, U>(f: T -> Result<seq<U>>, xs: seq<T>, u: U)
    requires Collect(f, xs).Success? && u in Collect(f, xs).value
    ensures exists i :: 0 <= i < |xs| && f(xs[i]).Success? && u in f(xs[i]).value
    decreases |xs|
  {
    if xs != [] {
      var init := xs[..|xs| - 1];
      if u in Collect(f, init).value {
        CollectFrom(f, init, u);
        var i :| 0 <= i < |init| && f(init[i]).Success? && u in f(init[i]).value;
        assert init[i] == xs[i];
      }
    }
  }

  /**
   * A FoodLibrary row: exactly the eight keys, a non-empty trimmed name, the
   * four nutrients a number or null, and the constant unit and source.
   */
  predicate RowShape(row: Record, category: string) {
    && row.Keys == RowKeys
    && row["name"].Str? && row["name"].s != "" && Trim(row["name"].s) == row["name"].s
    && (row["calories"].Null? || row["calories"].Num?)
    && (row["carbs"].Null? || row["carbs"].Num?)
    && (row["protein"].Null? || row["protein"].Num?)
    && (row["fat"].Null? || row["fat"].Num?)
    && row["unit"] == Str(Unit) && row["source"] == Str(Source) && row["category"] == Str(category)
  }

  /** A row built as `buildAllRows` does has the FoodLibrary shape. */
  lemma FoodRowShape(host: Host, item: Value, category: string)
    requires ItemName(host, item) != ""
    ensures RowShape(FoodRow(host, item, category), category)
  {
    var v := Prop(item, "foodName");
    TrimIdempotent(ToStr(host, if v.Null? || v.Undef? then Str("") else v));
    var name := ItemName(host, item);
    assert Trim(name) == name;
    RowOfShape(name, ParseNum(host, Prop(item, "energyKCal")), ParseNum(host, Prop(item, "CHO")),
      ParseNum(host, Prop(item, "protein")), ParseNum(host, Prop(item, "fat")), category);
  }

  lemma RowOfShape(name: string, calories: Value, carbs: Value, protein: Value, fat: Value, category: string)
    requires name != "" && Trim(name) == name
    requires (calories.Null? || calories.Num?) && (carbs.Null? || carbs.Num?)
    requires (protein.Null? || protein.Num?) && (fat.Null? || fat.Num?)
    ensures RowShape(RowOf(name, calories, carbs, protein, fat, category), category)
  {
  }

  lemma ItemRowShape(host: Host, category: string, item: Value, row: Record)
    requires ItemRow(host, category)(item).Success? && row in ItemRow(host, category)(item).value
    ensures RowShape(row, category)
  {
    assert ItemName(host, item) != "" && row == FoodRow(host, item, category);
    FoodRowShape(host, item, category);
  }

  /** Every row of a file is a FoodLibrary row of the category its name gives. */
  lemma FileRowsShape(host: Host, file: (string, string), row: Record)
    requires FileRows(host, file).Success? && row in FileRows(host, file).value
    ensures RowShape(row, ParseCategory(file.0))
  {
    var v := host.json(file.1).value;
    var category := ParseCategory(file.0);
    CollectFrom(ItemRow(host, category), v.items, row);
    var i :| 0 <= i < |v.items| && ItemRow(host, category)(v.items[i]).Success? && row in ItemRow(host, category)(v.items[i]).value;
    ItemRowShape(host, category, v.items[i], row);
  }

  /**
   * Every row `buildAllRows` returns is a FoodLibrary row whose category
   * comes from the name of a `.json` file of the directory.
   */
  lemma AllRowsShape(host: Host, dir: seq<(string, string)>, row: Record)
    requires AllRows(host, dir).Success? && row in AllRows(host, dir).value
    ensures exists file :: file in dir && IsJsonFile(file) && RowShape(row, ParseCategory(file.0))
  {
    var files := JsonFiles(dir);
    CollectFrom(FileReader(host), files, row);
    var i :| 0 <= i < |files| && FileReader(host)(files[i]).Success? && row in FileReader(host)(files[i]).value;
    assert FileReader(host)(files[i]) == FileRows(host, files[i]);
    FileRowsShape(host, files[i], row);
    assert files[i] in files;
  }
}
