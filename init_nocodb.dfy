/**
 * The NocoDB set-up script (scripts/init-nocodb.js): read `.env.local` with
 * its own line parser, pick the `keepfit` base (or the first base, or create
 * one), and create the Users table unless the base already has one. Every
 * failure inside `init` is caught and logged.
 */
module InitNocoDb {
  import opened Wrappers
  import opened Strings
  import opened Stores
  import Seqs
  import Dicts
  import Decimal
  import MigrateLoops
  import FoodImport

  // --------------------------------------------------------------- .env parser

  /**
   * `const [key, ...val] = line.split('=')`, written when `key` is non-empty
   * (the rest array is always truthy): the trimmed key and the trimmed rest
   * joined back with `=`.
   */
  function LineEntry(line: string): Option<(string, string)> {
    var parts := Split(line, '=');
    if parts[0] == "" then None else Some((Trim(parts[0]), Trim(Join(parts[1..], '='))))
  }

  /**
   * A line is skipped exactly when it is empty or starts with `=`; otherwise
   * the key is the text before the first `=` and the value everything after
   * it, inner `=` included, both trimmed; a line without `=` is stored with
   * the empty value.
   */
  lemma LineEntryCases(line: string)
    ensures LineEntry(line).None? <==> line == "" || line[0] == '='
    ensures '=' in line && line[0] != '=' ==>
      LineEntry(line) == Some((Trim(line[..IndexOf(line, '=')]), Trim(line[IndexOf(line, '=') + 1..])))
    ensures '=' !in line && line != "" ==> LineEntry(line) == Some((Trim(line), ""))
  {
    SplitHead(line, '=');
    if '=' in line {
      var i := IndexOf(line, '=');
      assert i == 0 <==> line[0] == '=';
      assert line[..i] == "" <==> i == 0;
    }
    assert Trim("") == "";
  }

  /**
   * Where a line has a key before its first `=`, this parser and the one of
   * the food-library import read it alike; a non-empty line without `=`,
   * which the import skips, is stored here.
   */
  lemma LineEntryVersusImport(line: string)
    ensures '=' in line && line[0] != '=' ==> LineEntry(line) == FoodImport.LineEntry(line)
    ensures '=' !in line && line != "" ==> FoodImport.LineEntry(line).None? && LineEntry(line).Some?
  {
    LineEntryCases(line);
  }

  /** Comment lines are not skipped: `#KEY=v` sets the key `#KEY`. */
  lemma CommentsKept(line: string)
    requires line != "" && line[0] == '#'
    ensures LineEntry(line).Some?
    ensures '=' in line ==> LineEntry(line).value.0 == Trim(line[..IndexOf(line, '=')])
  {
    LineEntryCases(line);
  }

  /** The dictionary the script builds: the entries of the lines between newlines, later ones winning. */
  function EnvOf(text: string): map<string, string> {
    Dicts.Assign(Seqs.MapSeq(Split(text, '\n'), LineEntry))
  }

  /** The `forEach` callback: the line's entry written into `env`. */
  method ApplyLine(env: map<string, string>, line: string) returns (env': map<string, string>)
    ensures LineEntry(line).Some? ==> env' == env[LineEntry(line).value.0 := LineEntry(line).value.1]
    ensures LineEntry(line).None? ==> env' == env
  {
    var parts := Split(line, '=');
    var key := parts[0];
    env' := env;
    if key != "" {
      env' := env[Trim(key) := Trim(Join(parts[1..], '='))];
    }
  }

  /** `envFile.split('\n').forEach(...)`, filling `env`. */
  method ParseEnv(text: string) returns (env: map<string, string>)
    ensures env == EnvOf(text)
  {
    var lines := Split(text, '\n');
    env := map[];
    for i := 0 to |lines|
      invariant env == Dicts.Assign(Seqs.MapSeq(lines[..i], LineEntry))
    {
      Dicts.AssignMapNext(lines, i, LineEntry);
      env := ApplyLine(env, lines[i]);
    }
    assert lines[..|lines|] == lines;
  }

  /**
   * A key is set exactly when some line writes it, and then holds the value
   * of the last line that does.
   */
  lemma EnvEntries(text: string, k: string)
    ensures k in EnvOf(text) <==> exists i :: 0 <= i < |Split(text, '\n')| && Dicts.Writes(LineEntry(Split(text, '\n')[i]), k)
    ensures k in EnvOf(text) ==> exists i :: (0 <= i < |Split(text, '\n')|
      && LineEntry(Split(text, '\n')[i]) == Some((k, EnvOf(text)[k]))
      && forall j :: i < j < |Split(text, '\n')| ==> !Dicts.Writes(LineEntry(Split(text, '\n')[j]), k))
  {
    var lines := Split(text, '\n');
    Dicts.AssignMapEntries(lines, LineEntry, k);
    if k in EnvOf(text) {
      var i :| (0 <= i < |lines| && LineEntry(lines[i]) == Some((k, EnvOf(text)[k]))
        && forall j :: i < j < |lines| ==> !Dicts.Writes(LineEntry(lines[j]), k));
    }
  }

  // ---------------------------------------------------------------------- init

  const BaseTitle: string := "keepfit"
  const UsersTitle: string := "Users"
  const UrlKey: string := "NEXT_PUBLIC_NOCODB_URL"

  /** `bases.find((b) => b.title === 'keepfit') || bases[0]`, or nothing when there are no bases. */
  function ChosenBase(bases: seq<NocoBase>): (r: Option<NocoBase>)
    ensures r.Some? <==> bases != []
    ensures r.Some? ==> r.value in bases
    ensures r.Some? && r.value.title != BaseTitle ==> r.value == bases[0] && forall b :: b in bases ==> b.title != BaseTitle
    ensures r.Some? && r.value.title == BaseTitle ==> exists i :: MigrateLoops.FirstWithTitle(bases, i, BaseTitle) && bases[i] == r.value
  {
    if bases == [] then None
    else
      var found := MigrateLoops.FindBase(bases, BaseTitle);
      if found.Some? then found else Some(bases[0])
  }

  /** `t.table_name === 'Users' || t.title === 'Users'`. */
  predicate IsUsersTable(t: NocoTable) {
    t.tableName == UsersTitle || t.title == UsersTitle
  }

  /** `tables.find(...)`: the first Users table. */
  function FindUsers(tables: seq<NocoTable>): (r: Option<NocoTable>)
    ensures r.Some? <==> exists i :: 0 <= i < |tables| && IsUsersTable(tables[i])
    ensures r.Some? ==> exists i :: (0 <= i < |tables| && tables[i] == r.value && IsUsersTable(tables[i])
      && forall j :: 0 <= j < i ==> !IsUsersTable(tables[j]))
  {
    if tables == [] then None
    else if IsUsersTable(tables[0]) then Some(tables[0])
    else
      var r := FindUsers(tables[1..]);
      assert forall i :: 1 <= i < |tables| ==> tables[i] == tables[1..][i - 1];
      r
  }

  /** How `init` ends: the Users table was there, it was created, or the error was logged. */
  datatype InitOutcome =
    | UsersExisted(baseId: string)
    | UsersCreated(baseId: string, tableId: string)
    | InitFailed(message: string)

  /** The message of the error `fetch` throws for a request against the URL read from the environment. */
  function UnparsableUrlError(env: map<string, string>): string {
    "Failed to parse URL from " + (if UrlKey in env then env[UrlKey] else "undefined") + "/api/v1/db/meta/projects"
  }

  /** The requests can be sent: the URL is set and not empty. */
  predicate Reachable(env: map<string, string>) {
    UrlKey in env && env[UrlKey] != ""
  }

  /** The id of the base `init` uses: the chosen one, or the one it creates. */
  function BaseIdOf(bases: seq<NocoBase>, next: nat): string {
    var chosen := ChosenBase(bases);
    if chosen.Some? then chosen.value.id else "p" + Decimal.NatToString(next)
  }

  /** The base list after `init` (for a reachable server). */
  function BasesAfter(bases: seq<NocoBase>, next: nat): seq<NocoBase> {
    if bases == [] then [NocoBase(BaseIdOf(bases, next), BaseTitle)] else bases
  }

  /** The table lists once the base is settled. */
  function TablesSeen(bases: seq<NocoBase>, tables: map<string, seq<NocoTable>>, next: nat): map<string, seq<NocoTable>> {
    if bases == [] then tables[BaseIdOf(bases, next) := []] else tables
  }

  /** The next id once the base is settled. */
  function NextSeen(bases: seq<NocoBase>, next: nat): nat {
    if bases == [] then next + 1 else next
  }

  /** What `init` ends with, for the environment and the server state before it. */
  function Outcome(env: map<string, string>, bases: seq<NocoBase>, tables: map<string, seq<NocoTable>>, next: nat): InitOutcome {
    if !Reachable(env) then InitFailed(UnparsableUrlError(env))
    else
      var baseId := BaseIdOf(bases, next);
      var seen := TablesSeen(bases, tables, next);
      if baseId !in seen then InitFailed(NoTablesError(baseId))
      else if FindUsers(seen[baseId]).Some? then UsersExisted(baseId)
      else UsersCreated(baseId, "m" + Decimal.NatToString(NextSeen(bases, next)))
  }

  /** The table list after `init`. */
  function TablesAfter(env: map<string, string>, bases: seq<NocoBase>, tables: map<string, seq<NocoTable>>, next: nat): map<string, seq<NocoTable>> {
    var r := Outcome(env, bases, tables, next);
    if !Reachable(env) then tables
    else
      var seen := TablesSeen(bases, tables, next);
      if r.UsersCreated? && r.baseId in seen then seen[r.baseId := seen[r.baseId] + [NocoTable(r.tableId, UsersTitle, UsersTitle)]]
      else seen
  }

  /** The requests `init` issues. */
  function InitCalls(env: map<string, string>, bases: seq<NocoBase>, tables: map<string, seq<NocoTable>>, next: nat): seq<NocoCall> {
    var baseId := BaseIdOf(bases, next);
    var r := Outcome(env, bases, tables, next);
    if !Reachable(env) then []
    else
      [ListBasesCall] + (if bases == [] then [CreateBaseCall(BaseTitle)] else []) + [ListTablesCall(baseId)]
      + (if r.UsersCreated? then [CreateTableCall(baseId, UsersTitle)] else [])
  }

  /** Settle the base: the chosen one from the listing, or a new `keepfit` base. */
  method SettleBase(noco: NocoDb) returns (baseId: string)
    modifies noco
    ensures baseId == BaseIdOf(old(noco.bases), old(noco.nextId))
    ensures noco.bases == BasesAfter(old(noco.bases), old(noco.nextId))
    ensures noco.tables == TablesSeen(old(noco.bases), old(noco.tables), old(noco.nextId))
    ensures noco.nextId == NextSeen(old(noco.bases), old(noco.nextId))
    ensures noco.rows == old(noco.rows)
    ensures noco.calls == old(noco.calls) + [ListBasesCall] + (if old(noco.bases) == [] then [CreateBaseCall(BaseTitle)] else [])
  {
    var bases := noco.ListBases();
    if bases != [] {
      var base := ChosenBase(bases);
      baseId := base.value.id;
      assert old(noco.calls) + [ListBasesCall] + [] == noco.calls;
    } else {
      baseId := noco.CreateBase(BaseTitle);
    }
  }

  /**
   * `init`: settle the base, list its tables, and create the Users table
   * when none of them is one. Errors end the run with their message; nothing
   * is thrown out of it.
   */
  method Init(env: map<string, string>, noco: NocoDb) returns (r: InitOutcome)
    requires noco.Valid()
    modifies noco
    ensures noco.Valid()
    ensures r == Outcome(env, old(noco.bases), old(noco.tables), old(noco.nextId))
    ensures noco.calls == old(noco.calls) + InitCalls(env, old(noco.bases), old(noco.tables), old(noco.nextId))
    ensures Reachable(env) ==> noco.bases == BasesAfter(old(noco.bases), old(noco.nextId))
    ensures !Reachable(env) ==> noco.bases == old(noco.bases)
    ensures noco.tables == TablesAfter(env, old(noco.bases), old(noco.tables), old(noco.nextId))
    ensures r.UsersCreated? ==> noco.rows == old(noco.rows)[r.tableId := []]
    ensures !r.UsersCreated? ==> noco.rows == old(noco.rows)
    ensures noco.nextId == old(noco.nextId) + (if Reachable(env) && old(noco.bases) == [] then 1 else 0) + (if r.UsersCreated? then 1 else 0)
  {
    if !Reachable(env) {
      return InitFailed(UnparsableUrlError(env));
    }
    ghost var calls0 := noco.calls;
    var baseId := SettleBase(noco);
    ghost var calls1 := noco.calls;
    var listing := noco.ListTables(baseId);
    if listing.Failure? {
      return InitFailed(listing.error);
    }
    var users := FindUsers(listing.value);
    if users.Some? {
      assert calls1 + [ListTablesCall(baseId)] + [] == noco.calls;
      return UsersExisted(baseId);
    }
    var created := noco.CreateTable(baseId, UsersTitle);
    if created.Failure? {
      return InitFailed(NoTablesError(baseId));
    }
    return UsersCreated(baseId, created.value);
  }

  /** `init` never ends in an uncaught error: it fails exactly when the URL is unusable or the chosen base has no table list. */
  lemma OutcomeCases(env: map<string, string>, bases: seq<NocoBase>, tables: map<string, seq<NocoTable>>, next: nat)
    ensures Outcome(env, bases, tables, next).InitFailed? <==>
      !Reachable(env) || (bases != [] && ChosenBase(bases).value.id !in tables)
    ensures Reachable(env) && bases == [] ==> Outcome(env, bases, tables, next).UsersCreated?
    ensures Outcome(env, bases, tables, next).UsersExisted? ==>
      InitCalls(env, bases, tables, next) == [ListBasesCall, ListTablesCall(BaseIdOf(bases, next))]
      && TablesAfter(env, bases, tables, next) == tables
  {
  }

  /** A second run finds the Users table the first one created or found, and creates nothing. */
  lemma {:induction false} InitIdempotent(env: map<string, string>, bases: seq<NocoBase>, tables: map<string, seq<NocoTable>>, next: nat)
    requires !Outcome(env, bases, tables, next).InitFailed?
    ensures var next2 := next + (if bases == [] then 1 else 0) + (if Outcome(env, bases, tables, next).UsersCreated? then 1 else 0);
      Outcome(env, BasesAfter(bases, next), TablesAfter(env, bases, tables, next), next2)
        == UsersExisted(Outcome(env, bases, tables, next).baseId)
  {
    var r := Outcome(env, bases, tables, next);
    var next2 := next + (if bases == [] then 1 else 0) + (if r.UsersCreated? then 1 else 0);
    var bases2 := BasesAfter(bases, next);
    var tables2 := TablesAfter(env, bases, tables, next);
    var baseId := BaseIdOf(bases, next);
    assert BaseIdOf(bases2, next2) == baseId by {
      if bases == [] {
        assert MigrateLoops.FindBase(bases2, BaseTitle) == Some(bases2[0]);
      }
    }
    assert TablesSeen(bases2, tables2, next2) == tables2;
    var seen := TablesSeen(bases, tables, next);
    if r.UsersCreated? {
      var t := NocoTable(r.tableId, UsersTitle, UsersTitle);
      assert tables2[baseId] == seen[baseId] + [t];
      assert IsUsersTable(tables2[baseId][|seen[baseId]|]);
    }
  }
}
