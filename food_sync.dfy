/**
 * The NocoDB side of the food-library import
 * (scripts/import-food-library-all.js): find the `keepfit` base and its
 * FoodLibrary table (creating the table when it is missing), delete every row
 * in it, insert the parsed rows in batches of 100 and read back the row
 * count.
 */
module FoodSync {
  import opened Wrappers
  import opened Js
  import opened Stores
  import Seqs
  import Decimal
  import MigrateLoops
  import FoodImport

  // ----------------------------------------------------- resolveBaseAndTable

  /** `item.title === TABLE_TITLE || item.table_name === TABLE_TITLE`. */
  predicate NamesFoodTable(t: NocoTable) {
    t.title == FoodImport.TableTitle || t.tableName == FoodImport.TableTitle
  }

  /** `tables.find(...)`: the first FoodLibrary table. */
  function FindTable(tables: seq<NocoTable>): (r: Option<NocoTable>)
    ensures r.Some? <==> exists i :: 0 <= i < |tables| && NamesFoodTable(tables[i])
    ensures r.Some? ==> exists i :: (0 <= i < |tables| && tables[i] == r.value && NamesFoodTable(tables[i])
      && forall j :: 0 <= j < i ==> !NamesFoodTable(tables[j]))
  {
    if tables == [] then None
    else if NamesFoodTable(tables[0]) then Some(tables[0])
    else
      var r := FindTable(tables[1..]);
      assert forall i :: 1 <= i < |tables| ==> tables[i] == tables[1..][i - 1];
      r
  }

  /** A listing with no FoodLibrary table, followed by one, finds that one. */
  lemma {:induction false} FindAppended(tables: seq<NocoTable>, t: NocoTable)
    requires FindTable(tables).None? && NamesFoodTable(t)
    ensures FindTable(tables + [t]) == Some(t)
  {
    if tables != [] {
      assert (tables + [t])[1..] == tables[1..] + [t];
      FindAppended(tables[1..], t);
    }
  }

  /** The table that `POST .../tables` creates with the next id. */
  function CreatedTable(next: nat): NocoTable {
    NocoTable("m" + Decimal.NatToString(next), FoodImport.TableTitle, FoodImport.TableTitle)
  }

  /** Whether resolving creates the table in base `baseId`: its tables can be listed and none is FoodLibrary. */
  predicate CreatesIn(tables: map<string, seq<NocoTable>>, baseId: string) {
    baseId in tables && FindTable(tables[baseId]).None?
  }

  /** The table found or created in base `baseId`. */
  function TableIn(tables: map<string, seq<NocoTable>>, baseId: string, next: nat): Result<NocoTable> {
    if baseId !in tables then Failure(NoTablesError(baseId))
    else
      var found := FindTable(tables[baseId]);
      if found.Some? then Success(found.value) else Success(CreatedTable(next))
  }

  /** Whether resolving creates the table: the base is there and has no FoodLibrary table. */
  predicate Creates(bases: seq<NocoBase>, tables: map<string, seq<NocoTable>>) {
    var base := MigrateLoops.FindBase(bases, FoodImport.BaseTitle);
    base.Some? && CreatesIn(tables, base.value.id)
  }

  /** What `resolveBaseAndTable` returns for the server state before it. */
  function Resolved(bases: seq<NocoBase>, tables: map<string, seq<NocoTable>>, next: nat): Result<NocoTable> {
    var base := MigrateLoops.FindBase(bases, FoodImport.BaseTitle);
    if base.None? then Failure("Base not found: " + FoodImport.BaseTitle) else TableIn(tables, base.value.id, next)
  }

  /** The requests made in base `baseId`. */
  function TableCalls(tables: map<string, seq<NocoTable>>, baseId: string): seq<NocoCall> {
    [ListTablesCall(baseId)] +
    if CreatesIn(tables, baseId) then [CreateTableCall(baseId, FoodImport.TableTitle), ListTablesCall(baseId)] else []
  }

  /** The requests `resolveBaseAndTable` issues. */
  function ResolveCalls(bases: seq<NocoBase>, tables: map<string, seq<NocoTable>>): seq<NocoCall> {
    var base := MigrateLoops.FindBase(bases, FoodImport.BaseTitle);
    [ListBasesCall] + if base.None? then [] else TableCalls(tables, base.value.id)
  }

  /** The resolved table is a FoodLibrary table; an existing one wins over creating one. */
  lemma ResolvedTable(bases: seq<NocoBase>, tables: map<string, seq<NocoTable>>, next: nat)
    ensures Resolved(bases, tables, next).Success? <==>
      exists i :: 0 <= i < |bases| && bases[i].title == FoodImport.BaseTitle && MigrateLoops.FindBase(bases, FoodImport.BaseTitle).value.id in tables
    ensures Resolved(bases, tables, next).Success? ==> NamesFoodTable(Resolved(bases, tables, next).value)
    ensures Resolved(bases, tables, next).Success? && !Creates(bases, tables) ==>
      Resolved(bases, tables, next).value in tables[MigrateLoops.FindBase(bases, FoodImport.BaseTitle).value.id]
    ensures Creates(bases, tables) ==> Resolved(bases, tables, next) == Success(CreatedTable(next))
  {
    var res := Resolved(bases, tables, next);
    if res.Success? && !Creates(bases, tables) {
      var base := MigrateLoops.FindBase(bases, FoodImport.BaseTitle).value;
      var found := FindTable(tables[base.id]);
      var i :| 0 <= i < |tables[base.id]| && tables[base.id][i] == found.value && NamesFoodTable(tables[base.id][i]);
    }
  }

  /** The table part of `resolveBaseAndTable`: find the FoodLibrary table of base `baseId`, creating it when missing. */
  method ResolveTable(noco: NocoDb, baseId: string) returns (r: Result<NocoTable>)
    requires noco.Valid()
    modifies noco
    ensures noco.Valid()
    ensures r == TableIn(old(noco.tables), baseId, old(noco.nextId))
    ensures noco.calls == old(noco.calls) + TableCalls(old(noco.tables), baseId)
    ensures CreatesIn(old(noco.tables), baseId) ==>
      && noco.tables == old(noco.tables)[baseId := old(noco.tables)[baseId] + [CreatedTable(old(noco.nextId))]]
      && noco.rows == old(noco.rows)[r.value.id := []] && noco.nextId == old(noco.nextId) + 1
    ensures !CreatesIn(old(noco.tables), baseId) ==>
      noco.tables == old(noco.tables) && noco.rows == old(noco.rows) && noco.nextId == old(noco.nextId)
    ensures noco.bases == old(noco.bases)
  {
    var listing := noco.ListTables(baseId);
    if listing.Failure? {
      return Failure(listing.error);
    }
    var table := FindTable(listing.value);
    if table.None? {
      var created := noco.CreateTable(baseId, FoodImport.TableTitle);
      if created.Failure? {
        return Failure(NoTablesError(baseId));
      }
      var again := noco.ListTables(baseId);
      if again.Failure? {
        return Failure(NoTablesError(baseId));
      }
      FindAppended(listing.value, CreatedTable(old(noco.nextId)));
      table := FindTable(again.value);
    }
    if table.None? {
      return Failure("Table not found: " + FoodImport.TableTitle);
    }
    return Success(table.value);
  }

  /**
   * `resolveBaseAndTable`: the base titled `keepfit`, then the first of its
   * tables titled or named FoodLibrary; when there is none, create it and
   * look again.
   */
  method ResolveBaseAndTable(noco: NocoDb) returns (r: Result<NocoTable>)
    requires noco.Valid()
    modifies noco
    ensures noco.Valid()
    ensures r == Resolved(old(noco.bases), old(noco.tables), old(noco.nextId))
    ensures noco.calls == old(noco.calls) + ResolveCalls(old(noco.bases), old(noco.tables))
    ensures Creates(old(noco.bases), old(noco.tables)) ==>
      var id := MigrateLoops.FindBase(old(noco.bases), FoodImport.BaseTitle).value.id;
      && noco.tables == old(noco.tables)[id := old(noco.tables)[id] + [CreatedTable(old(noco.nextId))]]
      && noco.rows == old(noco.rows)[r.value.id := []] && noco.nextId == old(noco.nextId) + 1
    ensures !Creates(old(noco.bases), old(noco.tables)) ==>
      noco.tables == old(noco.tables) && noco.rows == old(noco.rows) && noco.nextId == old(noco.nextId)
    ensures noco.rows == RowsAfter(old(noco.bases), old(noco.tables), old(noco.rows), old(noco.nextId))
    ensures noco.nextId == NextAfter(old(noco.bases), old(noco.tables), old(noco.nextId))
    ensures noco.bases == old(noco.bases)
  {
    var bases := noco.ListBases();
    var base := MigrateLoops.FindBase(bases, FoodImport.BaseTitle);
    if base.None? {
      return Failure("Base not found: " + FoodImport.BaseTitle);
    }
    r := ResolveTable(noco, base.value.id);
  }

  // ----------------------------------------------------------- deleteAllRows

  const DeletePageSize: nat := 200

  function RowDeletes(t: string, page: seq<NocoRow>): (calls: seq<NocoCall>)
    ensures |calls| == |page|
    ensures forall i :: 0 <= i < |page| ==> calls[i] == DeleteRowCall(t, page[i].id)
  {
    Seqs.MapSeq(page, (row: NocoRow) => DeleteRowCall(t, row.id))
  }

  /**
   * The requests `deleteAllRows` issues on a table holding `s`: read the
   * first 200 rows, delete them one by one, and read again until a read
   * comes back empty.
   */
  function ClearRowsCalls(t: string, s: seq<NocoRow>): seq<NocoCall>
    decreases |s|
  {
    var page := Window(s, 0, DeletePageSize);
    [ListRowsCall(t, DeletePageSize, 0)] +
    if s == [] then [] else RowDeletes(t, page) + ClearRowsCalls(t, s[|page|..])
  }

  predicate IsRowDelete(call: NocoCall) {
    call.DeleteRowCall?
  }

  predicate IsRowsRead(call: NocoCall) {
    call.ListRowsCall?
  }

  lemma RowDeletesSplit(t: string, s: seq<NocoRow>, k: nat)
    requires k <= |s|
    ensures RowDeletes(t, s) == RowDeletes(t, s[..k]) + RowDeletes(t, s[k..])
  {
  }

  /** One round of `deleteAllRows` on a non-empty table: read, delete the page, go on with the rest. */
  lemma ClearRowsUnfold(t: string, s: seq<NocoRow>)
    requires s != []
    ensures var k := |Window(s, 0, DeletePageSize)|;
      && 0 < k <= |s|
      && ClearRowsCalls(t, s) == [ListRowsCall(t, DeletePageSize, 0)] + (RowDeletes(t, s[..k]) + ClearRowsCalls(t, s[k..]))
  {
    assert Window(s, 0, DeletePageSize) == s[..|Window(s, 0, DeletePageSize)|];
  }

  /** Emptying a table deletes every row once, in table order. */
  lemma {:induction false} ClearRowsDeletes(t: string, s: seq<NocoRow>)
    ensures Seqs.Filter(ClearRowsCalls(t, s), IsRowDelete) == RowDeletes(t, s)
    decreases |s|
  {
    if s != [] {
      var k := |Window(s, 0, DeletePageSize)|;
      var dels := RowDeletes(t, s[..k]);
      var rest := ClearRowsCalls(t, s[k..]);
      ClearRowsUnfold(t, s);
      ClearRowsDeletes(t, s[k..]);
      Seqs.FilterRound(ListRowsCall(t, DeletePageSize, 0), dels, rest, IsRowDelete);
      RowDeletesSplit(t, s, k);
    }
  }

  /**
   * Emptying a table reads one page more than it takes pages of 200 to hold
   * the rows: the last read is the empty one.
   */
  lemma {:induction false} ClearRowsReads(t: string, s: seq<NocoRow>)
    ensures Seqs.CountIf(ClearRowsCalls(t, s), IsRowsRead) == (|s| + DeletePageSize - 1) / DeletePageSize + 1
    decreases |s|
  {
    var head: seq<NocoCall> := [ListRowsCall(t, DeletePageSize, 0)];
    if s != [] {
      var k := |Window(s, 0, DeletePageSize)|;
      var dels := RowDeletes(t, s[..k]);
      var rest := ClearRowsCalls(t, s[k..]);
      ClearRowsUnfold(t, s);
      ClearRowsReads(t, s[k..]);
      CountIfConcat(head, dels + rest, IsRowsRead);
      CountIfConcat(dels, rest, IsRowsRead);
      CountIfNone(dels, IsRowsRead);
    }
  }

  lemma {:induction false} CountIfConcat<T>(a: seq<T>, b: seq<T>, p: T -> bool)
    ensures Seqs.CountIf(a + b, p) == Seqs.CountIf(a, p) + Seqs.CountIf(b, p)
  {
    if a != [] {
      assert (a + b)[0] == a[0] && (a + b)[1..] == a[1..] + b;
      CountIfConcat(a[1..], b, p);
    } else {
      assert a + b == b;
    }
  }

  lemma {:induction false} CountIfNone<T>(s: seq<T>, p: T -> bool)
    requires forall i :: 0 <= i < |s| ==> !p(s[i])
    ensures Seqs.CountIf(s, p) == 0
  {
    if s != [] {
      CountIfNone(s[1..], p);
    }
  }

  /** The inner loop of `deleteAllRows`: deletes the listed rows, which are the first rows of the table. */
  method DeleteListed(noco: NocoDb, t: string, list: seq<NocoRow>, ghost cur: seq<NocoRow>) returns (n: nat)
    requires noco.Valid() && t in noco.rows && noco.rows[t] == cur
    requires |list| <= |cur| && list == cur[..|list|]
    modifies noco
    ensures noco.Valid()
    ensures n == |list|
    ensures noco.rows == old(noco.rows)[t := cur[|list|..]]
    ensures noco.calls == old(noco.calls) + RowDeletes(t, list)
    ensures noco.bases == old(noco.bases) && noco.tables == old(noco.tables) && noco.nextId == old(noco.nextId)
  {
    n := 0;
    assert cur[0..] == cur;
    for j := 0 to |list|
      invariant noco.Valid()
      invariant noco.bases == old(noco.bases) && noco.tables == old(noco.tables) && noco.nextId == old(noco.nextId)
      invariant noco.rows == old(noco.rows)[t := cur[j..]]
      invariant n == j
      invariant noco.calls == old(noco.calls) + RowDeletes(t, list[..j])
    {
      DeleteFirst(cur, j, noco.rows[t]);
      assert cur[j] == list[j];
      var d := noco.DeleteRow(t, list[j].id);
      n := n + 1;
      assert list[..j + 1] == list[..j] + [list[j]];
    }
    assert list[..|list|] == list;
  }

  /** The `j`-th listed row is the first one left, so deleting it drops exactly that row. */
  lemma DeleteFirst(cur: seq<NocoRow>, j: nat, now: seq<NocoRow>)
    requires j < |cur| && now == cur[j..] && DistinctRowIds(now)
    ensures HasRow(now, cur[j].id)
    ensures WithoutRow(now, cur[j].id) == cur[j + 1..]
  {
    assert now[0] == cur[j];
    WithoutFirstRow(now);
    assert now[1..] == cur[j + 1..];
  }

  /** One round of `deleteAllRows` on a table holding `s`, given the trace before it. */
  lemma ClearRowsRound(total: seq<NocoCall>, before: seq<NocoCall>, t: string, s: seq<NocoRow>, list: seq<NocoRow>)
    requires total == before + ClearRowsCalls(t, s)
    requires s != [] && list == Window(s, 0, DeletePageSize)
    ensures total == before + [ListRowsCall(t, DeletePageSize, 0)] + RowDeletes(t, list) + ClearRowsCalls(t, s[|list|..])
  {
  }

  /**
   * `deleteAllRows`: reads the first 200 rows and deletes each, until a read
   * comes back empty. It returns how many rows it deleted, which is how many
   * the table held, and leaves the table empty.
   */
  method DeleteAllRows(noco: NocoDb, t: string) returns (r: Result<nat>)
    requires noco.Valid()
    modifies noco
    ensures noco.Valid()
    ensures r.Success? <==> t in old(noco.rows)
    ensures r.Success? ==> r.value == |old(noco.rows)[t]| && noco.rows == old(noco.rows)[t := []]
    ensures r.Success? ==> noco.calls == old(noco.calls) + ClearRowsCalls(t, old(noco.rows)[t])
    ensures r.Failure? ==> noco.rows == old(noco.rows) && noco.calls == old(noco.calls) + [ListRowsCall(t, DeletePageSize, 0)]
    ensures r.Failure? ==> r.error == NoRecordsError(t)
    ensures noco.bases == old(noco.bases) && noco.tables == old(noco.tables) && noco.nextId == old(noco.nextId)
  {
    ghost var orig := if t in noco.rows then noco.rows[t] else [];
    if t in noco.rows {
      assert orig[0..] == orig;
      assert noco.rows[t := orig] == noco.rows;
    }
    var deleted := 0;
    while true
      invariant noco.Valid()
      invariant noco.bases == old(noco.bases) && noco.tables == old(noco.tables) && noco.nextId == old(noco.nextId)
      invariant deleted <= |orig|
      invariant deleted > 0 ==> t in old(noco.rows)
      invariant deleted == 0 ==> noco.rows == old(noco.rows) && noco.calls == old(noco.calls)
      invariant t in old(noco.rows) ==> noco.rows == old(noco.rows)[t := orig[deleted..]]
      invariant t in old(noco.rows) ==> old(noco.calls) + ClearRowsCalls(t, orig) == noco.calls + ClearRowsCalls(t, orig[deleted..])
      decreases |orig| - deleted
    {
      ghost var before := noco.calls;
      var response := noco.ListRows(t, DeletePageSize, 0);
      if response.Failure? {
        return Failure(response.error);
      }
      var list := response.value;
      if |list| == 0 {
        assert orig[deleted..] == [];
        return Success(deleted);
      }
      ClearRowsRound(old(noco.calls) + ClearRowsCalls(t, orig), before, t, orig[deleted..], list);
      var n := DeleteListed(noco, t, list, orig[deleted..]);
      assert orig[deleted..][|list|..] == orig[deleted + n..];
      deleted := deleted + n;
    }
  }

  // -------------------------------------------------------------- insertRows

  const BatchSize: nat := 100

  /** `rows.slice(i, i + 100)` for `i` = 0, 100, 200, ... below the length. */
  function Batches(rows: seq<Record>): seq<seq<Record>>
    decreases |rows|
  {
    if rows == [] then []
    else if |rows| <= BatchSize then [rows]
    else [rows[..BatchSize]] + Batches(rows[BatchSize..])
  }

  /** The batches hold every row once and in order, each between 1 and 100 rows, and there are ceil(n/100) of them. */
  lemma {:induction false} BatchesShape(rows: seq<Record>)
    ensures Seqs.Flatten(Batches(rows)) == rows
    ensures forall i :: 0 <= i < |Batches(rows)| ==> 1 <= |Batches(rows)[i]| <= BatchSize
    ensures |Batches(rows)| == (|rows| + BatchSize - 1) / BatchSize
    decreases |rows|
  {
    if |rows| > BatchSize {
      var rest := rows[BatchSize..];
      BatchesShape(rest);
      var bs := Batches(rows);
      assert bs == [rows[..BatchSize]] + Batches(rest);
      assert bs[1..] == Batches(rest);
      assert rows == rows[..BatchSize] + rest;
      forall i | 1 <= i < |bs| ensures 1 <= |bs[i]| <= BatchSize {
        assert bs[i] == Batches(rest)[i - 1];
      }
    }
  }

  function InsertCalls(t: string, batches: seq<seq<Record>>): (calls: seq<NocoCall>)
    ensures |calls| == |batches|
    ensures forall i :: 0 <= i < |batches| ==> calls[i] == InsertRowsCall(t, batches[i])
  {
    Seqs.MapSeq(batches, (b: seq<Record>) => InsertRowsCall(t, b))
  }

  /** The batch taken at `i` and the ones after it. */
  lemma BatchStep(rows: seq<Record>, i: nat)
    requires i < |rows|
    ensures var end := if i + BatchSize <= |rows| then i + BatchSize else |rows|;
      Batches(rows[i..]) == [rows[i..end]] + Batches(rows[end..])
  {
    var end := if i + BatchSize <= |rows| then i + BatchSize else |rows|;
    if |rows[i..]| > BatchSize {
      assert rows[i..][..BatchSize] == rows[i..end];
      assert rows[i..][BatchSize..] == rows[end..];
    } else {
      assert rows[i..] == rows[i..end];
      assert rows[end..] == [];
    }
  }

  /** Ids of rows inserted in two steps continue where the first step stopped. */
  lemma NewRowsConcat(a: seq<Record>, b: seq<Record>, next: nat)
    ensures NewRows(a, next) + NewRows(b, next + |a|) == NewRows(a + b, next)
  {
  }

  lemma InsertCallsCons(t: string, batch: seq<Record>, rest: seq<seq<Record>>)
    ensures InsertCalls(t, [batch] + rest) == [InsertRowsCall(t, batch)] + InsertCalls(t, rest)
  {
  }

  /** The trace after posting the batch at `i`, given the trace before it. */
  lemma InsertRound(total: seq<NocoCall>, before: seq<NocoCall>, t: string, rows: seq<Record>, i: nat, after: seq<NocoCall>)
    requires i < |rows| && total == before + InsertCalls(t, Batches(rows[i..]))
    requires after == before + [InsertRowsCall(t, rows[i..if i + BatchSize <= |rows| then i + BatchSize else |rows|])]
    ensures total == after + InsertCalls(t, Batches(rows[if i + BatchSize <= |rows| then i + BatchSize else |rows|..]))
    ensures i == 0 ==> after == before + [InsertRowsCall(t, Batches(rows)[0])]
  {
    var end := if i + BatchSize <= |rows| then i + BatchSize else |rows|;
    BatchStep(rows, i);
    InsertCallsCons(t, rows[i..end], Batches(rows[end..]));
    Seqs.AppendAssoc(before, [InsertRowsCall(t, rows[i..end])], InsertCalls(t, Batches(rows[end..])));
    if i == 0 {
      assert rows[i..] == rows;
    }
  }

  /** The table after the batch from `i` to `end`, given the table after the rows before `i`. */
  lemma InsertedStep(orig: map<string, seq<NocoRow>>, t: string, rows: seq<Record>, i: nat, end: nat, next: nat)
    requires t in orig && i <= end <= |rows|
    ensures var cur := orig[t := orig[t] + NewRows(rows[..i], next)];
      cur[t := cur[t] + NewRows(rows[i..end], next + i)] == orig[t := orig[t] + NewRows(rows[..end], next)]
  {
    NewRowsConcat(rows[..i], rows[i..end], next);
    assert rows[..i] + rows[i..end] == rows[..end];
    Seqs.AppendAssoc(orig[t], NewRows(rows[..i], next), NewRows(rows[i..end], next + i));
  }

  /**
   * `insertRows`: posts the rows in batches of 100 and returns how many it
   * sent; the table gains exactly those rows, in order, with fresh ids.
   */
  method InsertAllRows(noco: NocoDb, t: string, rows: seq<Record>) returns (r: Result<nat>)
    requires noco.Valid()
    modifies noco
    ensures noco.Valid()
    ensures r.Success? <==> t in old(noco.rows) || rows == []
    ensures r.Success? ==> r.value == |rows| && noco.nextId == old(noco.nextId) + |rows|
    ensures r.Success? && t in old(noco.rows) ==> noco.rows == old(noco.rows)[t := old(noco.rows)[t] + NewRows(rows, old(noco.nextId))]
    ensures r.Success? ==> noco.calls == old(noco.calls) + InsertCalls(t, Batches(rows))
    ensures rows == [] ==> noco.rows == old(noco.rows) && noco.calls == old(noco.calls)
    ensures r.Failure? ==> rows != [] && noco.rows == old(noco.rows) && noco.nextId == old(noco.nextId)
    ensures r.Failure? ==> noco.calls == old(noco.calls) + [InsertRowsCall(t, Batches(rows)[0])]
    ensures noco.bases == old(noco.bases) && noco.tables == old(noco.tables)
  {
    var inserted := 0;
    var i := 0;
    assert rows[0..] == rows;
    if t in noco.rows {
      assert noco.rows[t] + NewRows(rows[..0], noco.nextId) == noco.rows[t];
      assert noco.rows[t := noco.rows[t]] == noco.rows;
    }
    while i < |rows|
      invariant inserted <= |rows|
      invariant i <= |rows| ==> inserted == i
      invariant i > |rows| ==> inserted == |rows|
      invariant noco.Valid()
      invariant noco.bases == old(noco.bases) && noco.tables == old(noco.tables)
      invariant inserted > 0 ==> t in old(noco.rows)
      invariant inserted == 0 ==> noco.rows == old(noco.rows) && noco.calls == old(noco.calls)
      invariant noco.nextId == old(noco.nextId) + inserted
      invariant t in old(noco.rows) ==> noco.rows == old(noco.rows)[t := old(noco.rows)[t] + NewRows(rows[..inserted], old(noco.nextId))]
      invariant old(noco.calls) + InsertCalls(t, Batches(rows)) == noco.calls + InsertCalls(t, Batches(rows[inserted..]))
      decreases |rows| - inserted
    {
      var end := if i + BatchSize <= |rows| then i + BatchSize else |rows|;
      var batch := rows[i..end];
      ghost var before := noco.calls;
      var sent := noco.InsertRows(t, batch);
      InsertRound(old(noco.calls) + InsertCalls(t, Batches(rows)), before, t, rows, i, noco.calls);
      if sent.Failure? {
        return Failure(sent.error);
      }
      if t in old(noco.rows) {
        InsertedStep(old(noco.rows), t, rows, i, end, old(noco.nextId));
      }
      inserted := inserted + |batch|;
      i := i + BatchSize;
    }
    assert rows[..inserted] == rows;
    return Success(inserted);
  }

  // -------------------------------------------------------------------- main

  const UrlKey: string := "NEXT_PUBLIC_NOCODB_URL"
  const TokenKey: string := "NEXT_PUBLIC_NOCODB_API_TOKEN"

  /** A setting counts when it is present and not empty. */
  predicate Configured(env: map<string, string>, key: string) {
    key in env && env[key] != ""
  }

  /**
   * Everything `main` does before its first request: both paths must exist,
   * both settings must be given, and the files must yield at least one row.
   */
  function Preflight(host: Host, envText: Option<string>, dir: Option<seq<(string, string)>>): Result<seq<Record>> {
    if envText.None? then Failure(".env.local not found: " + FoodImport.EnvPath)
    else if dir.None? then Failure("Data directory not found: " + FoodImport.DataDir)
    else
      var env := FoodImport.EnvOf(envText.value);
      if !Configured(env, UrlKey) || !Configured(env, TokenKey) then
        Failure("Missing " + UrlKey + " or " + TokenKey)
      else
        var rows := FoodImport.AllRows(host, dir.value);
        if rows.Failure? then rows
        else if rows.value == [] then Failure("No rows parsed from source JSON files")
        else rows
  }

  /** The printed summary, without the two constant fields. */
  datatype Report = Report(parsed: nat, deleted: nat, inserted: nat, total: nat)

  /** The rows of each table once the FoodLibrary table is resolved. */
  function RowsAfter(bases: seq<NocoBase>, tables: map<string, seq<NocoTable>>, rows: map<string, seq<NocoRow>>, next: nat): map<string, seq<NocoRow>> {
    if Creates(bases, tables) then rows[CreatedTable(next).id := []] else rows
  }

  function NextAfter(bases: seq<NocoBase>, tables: map<string, seq<NocoTable>>, next: nat): nat {
    if Creates(bases, tables) then next + 1 else next
  }

  /** What the NocoDB part of `main` reports, for the server state before it and the parsed rows. */
  function Outcome(bases: seq<NocoBase>, tables: map<string, seq<NocoTable>>, rows: map<string, seq<NocoRow>>, next: nat, parsed: seq<Record>): Result<Report> {
    var table := Resolved(bases, tables, next);
    if table.Failure? then Failure(table.error)
    else
      var t := table.value.id;
      var before := RowsAfter(bases, tables, rows, next);
      if t !in before then Failure(NoRecordsError(t))
      else Success(Report(|parsed|, |before[t]|, |parsed|, |parsed|))
  }

  /** The requests of the NocoDB part of `main`, when it succeeds. */
  function SyncCalls(bases: seq<NocoBase>, tables: map<string, seq<NocoTable>>, rows: map<string, seq<NocoRow>>, next: nat, parsed: seq<Record>): seq<NocoCall>
    requires Resolved(bases, tables, next).Success?
    requires Resolved(bases, tables, next).value.id in RowsAfter(bases, tables, rows, next)
  {
    var t := Resolved(bases, tables, next).value.id;
    ResolveCalls(bases, tables) + ClearRowsCalls(t, RowsAfter(bases, tables, rows, next)[t]) + InsertCalls(t, Batches(parsed)) + [CountRowsCall(t)]
  }

  lemma ConcatSteps<T>(a: seq<T>, b: seq<T>, c: seq<T>, d: seq<T>, e: seq<T>)
    ensures a + b + c + d + e == a + (b + c + d + e)
  {
  }

  /**
   * The NocoDB part of `main`: resolve the table, empty it, insert the rows
   * and count what the table then holds, which is exactly the inserted rows.
   */
  method Sync(noco: NocoDb, parsed: seq<Record>) returns (r: Result<Report>)
    requires noco.Valid()
    modifies noco
    ensures noco.Valid()
    ensures r == Outcome(old(noco.bases), old(noco.tables), old(noco.rows), old(noco.nextId), parsed)
    ensures r.Success? ==>
      var t := Resolved(old(noco.bases), old(noco.tables), old(noco.nextId)).value.id;
      var next := NextAfter(old(noco.bases), old(noco.tables), old(noco.nextId));
      && noco.rows == RowsAfter(old(noco.bases), old(noco.tables), old(noco.rows), old(noco.nextId))[t := NewRows(parsed, next)]
      && noco.nextId == next + |parsed|
      && noco.calls == old(noco.calls) + SyncCalls(old(noco.bases), old(noco.tables), old(noco.rows), old(noco.nextId), parsed)
  {
    ghost var c0 := noco.calls;
    var table := ResolveBaseAndTable(noco);
    if table.Failure? {
      return Failure(table.error);
    }
    var t := table.value.id;
    ghost var mid := noco.rows;
    ghost var next := noco.nextId;
    var deleted := DeleteAllRows(noco, t);
    if deleted.Failure? {
      return Failure(deleted.error);
    }
    var inserted := InsertAllRows(noco, t, parsed);
    if inserted.Failure? {
      return Failure(NoRecordsError(t));
    }
    assert [] + NewRows(parsed, next) == NewRows(parsed, next);
    assert mid[t := []][t := NewRows(parsed, next)] == mid[t := NewRows(parsed, next)];
    var total := noco.CountRows(t);
    if total.Failure? {
      return Failure(NoRecordsError(t));
    }
    ConcatSteps(c0, ResolveCalls(old(noco.bases), old(noco.tables)), ClearRowsCalls(t, mid[t]), InsertCalls(t, Batches(parsed)), [CountRowsCall(t)]);
    return Success(Report(|parsed|, deleted.value, inserted.value, total.value));
  }

  /**
   * `main`: the checks before any request, then the NocoDB part. `envText`
   * and `dir` are the `.env.local` file and the data directory, `None` when
   * they do not exist.
   */
  method ImportAll(host: Host, envText: Option<string>, dir: Option<seq<(string, string)>>, noco: NocoDb) returns (r: Result<Report>)
    requires noco.Valid()
    modifies noco
    ensures noco.Valid()
    ensures Preflight(host, envText, dir).Failure? ==>
      && r == Failure(Preflight(host, envText, dir).error)
      && noco.rows == old(noco.rows) && noco.tables == old(noco.tables) && noco.nextId == old(noco.nextId)
      && noco.calls == old(noco.calls)
    ensures Preflight(host, envText, dir).Success? ==>
      var parsed := Preflight(host, envText, dir).value;
      && r == Outcome(old(noco.bases), old(noco.tables), old(noco.rows), old(noco.nextId), parsed)
      && (r.Success? ==> noco.calls == old(noco.calls) + SyncCalls(old(noco.bases), old(noco.tables), old(noco.rows), old(noco.nextId), parsed))
  {
    if envText.None? {
      return Failure(".env.local not found: " + FoodImport.EnvPath);
    }
    if dir.None? {
      return Failure("Data directory not found: " + FoodImport.DataDir);
    }
    var env := FoodImport.LoadEnv(envText.value);
    if !Configured(env, UrlKey) || !Configured(env, TokenKey) {
      return Failure("Missing " + UrlKey + " or " + TokenKey);
    }
    var rows := FoodImport.BuildAllRows(host, dir.value);
    if rows.Failure? {
      return Failure(rows.error);
    }
    if |rows.value| == 0 {
      return Failure("No rows parsed from source JSON files");
    }
    r := Sync(noco, rows.value);
  }

  /**
   * A successful import reports as many parsed, inserted and counted rows,
   * and deletes what the table held: nothing when the table was created.
   */
  lemma OutcomeReport(bases: seq<NocoBase>, tables: map<string, seq<NocoTable>>, rows: map<string, seq<NocoRow>>, next: nat, parsed: seq<Record>)
    requires Outcome(bases, tables, rows, next, parsed).Success?
    ensures var report := Outcome(bases, tables, rows, next, parsed).value;
      && report.parsed == report.inserted == report.total == |parsed|
      && (Creates(bases, tables) ==> report.deleted == 0)
      && (!Creates(bases, tables) ==> report.deleted == |rows[Resolved(bases, tables, next).value.id]|)
  {
    if Creates(bases, tables) {
      ResolvedTable(bases, tables, next);
    }
  }

  /** `main` issues no request unless there is at least one row to insert. */
  lemma PreflightRows(host: Host, envText: Option<string>, dir: Option<seq<(string, string)>>)
    ensures Preflight(host, envText, dir).Success? <==>
      && envText.Some? && dir.Some?
      && Configured(FoodImport.EnvOf(envText.value), UrlKey) && Configured(FoodImport.EnvOf(envText.value), TokenKey)
      && FoodImport.AllRows(host, dir.value).Success? && FoodImport.AllRows(host, dir.value).value != []
    ensures Preflight(host, envText, dir).Success? ==> Preflight(host, envText, dir).value == FoodImport.AllRows(host, dir.value).value
  {
  }

  /** Emptying a table issues nothing but row reads and row deletes. */
  lemma {:induction false} ClearRowsKinds(t: string, s: seq<NocoRow>)
    ensures forall i :: 0 <= i < |ClearRowsCalls(t, s)| ==> ClearRowsCalls(t, s)[i].ListRowsCall? || ClearRowsCalls(t, s)[i].DeleteRowCall?
    decreases |s|
  {
    if s != [] {
      var page := Window(s, 0, DeletePageSize);
      var dels := RowDeletes(t, page);
      var rest := ClearRowsCalls(t, s[|page|..]);
      ClearRowsKinds(t, s[|page|..]);
      var all := ClearRowsCalls(t, s);
      assert all == [ListRowsCall(t, DeletePageSize, 0)] + dels + rest;
      forall i | 0 <= i < |all| ensures all[i].ListRowsCall? || all[i].DeleteRowCall? {
        if i > |dels| {
          assert all[i] == rest[i - 1 - |dels|];
        }
      }
    }
  }

  /** Every row delete of the import comes before every row insert. */
  lemma DeletesBeforeInserts(bases: seq<NocoBase>, tables: map<string, seq<NocoTable>>, rows: map<string, seq<NocoRow>>, next: nat, parsed: seq<Record>)
    requires Resolved(bases, tables, next).Success?
    requires Resolved(bases, tables, next).value.id in RowsAfter(bases, tables, rows, next)
    ensures var calls := SyncCalls(bases, tables, rows, next, parsed);
      forall i, j :: 0 <= i < |calls| && 0 <= j < |calls| && calls[i].DeleteRowCall? && calls[j].InsertRowsCall? ==> i < j
  {
    var t := Resolved(bases, tables, next).value.id;
    var resolve := ResolveCalls(bases, tables);
    var clear := ClearRowsCalls(t, RowsAfter(bases, tables, rows, next)[t]);
    var insert := InsertCalls(t, Batches(parsed));
    ClearRowsKinds(t, RowsAfter(bases, tables, rows, next)[t]);
    NoInsertsBefore(resolve, clear);
    NoDeletesAfter(insert, CountRowsCall(t));
    Seqs.AppendAssoc(resolve + clear, insert, [CountRowsCall(t)]);
    DeletesThenInserts(resolve + clear, insert + [CountRowsCall(t)]);
  }

  /** Resolving the table inserts nothing, nor does emptying it. */
  lemma NoInsertsBefore(resolve: seq<NocoCall>, clear: seq<NocoCall>)
    requires forall i :: 0 <= i < |resolve| ==> resolve[i].ListBasesCall? || resolve[i].ListTablesCall? || resolve[i].CreateTableCall?
    requires forall i :: 0 <= i < |clear| ==> clear[i].ListRowsCall? || clear[i].DeleteRowCall?
    ensures forall i :: 0 <= i < |resolve + clear| ==> !(resolve + clear)[i].InsertRowsCall?
  {
    forall i | 0 <= i < |resolve + clear| ensures !(resolve + clear)[i].InsertRowsCall? {
      if i >= |resolve| {
        assert (resolve + clear)[i] == clear[i - |resolve|];
      }
    }
  }

  /** Inserting and counting delete nothing. */
  lemma NoDeletesAfter(insert: seq<NocoCall>, count: NocoCall)
    requires forall i :: 0 <= i < |insert| ==> insert[i].InsertRowsCall?
    requires count.CountRowsCall?
    ensures forall i :: 0 <= i < |insert + [count]| ==> !(insert + [count])[i].DeleteRowCall?
  {
  }

  /** When only `front` deletes and only `back` inserts, every delete precedes every insert. */
  lemma DeletesThenInserts(front: seq<NocoCall>, back: seq<NocoCall>)
    requires forall i :: 0 <= i < |front| ==> !front[i].InsertRowsCall?
    requires forall i :: 0 <= i < |back| ==> !back[i].DeleteRowCall?
    ensures var calls := front + back;
      forall i, j :: 0 <= i < |calls| && 0 <= j < |calls| && calls[i].DeleteRowCall? && calls[j].InsertRowsCall? ==> i < j
  {
    var calls := front + back;
    forall i | 0 <= i < |calls|
      ensures calls[i].DeleteRowCall? ==> i < |front|
      ensures calls[i].InsertRowsCall? ==> i >= |front|
    {
      if i >= |front| {
        assert calls[i] == back[i - |front|];
      }
    }
  }
}
