/**
 * Configuration of the NocoDB → PocketBase migration
 * (scripts/migrate-nocodb-to-pocketbase.js): the `.env.local` parser, the
 * required-variable lookup that lets the process environment override the
 * file, the admin-credential fallback chain and the NocoDB base title.
 */
module MigrateConfig {
  import opened Wrappers
  import opened Strings
  import Seqs
  import Dicts

  type Env = map<string, string>

  /** The write one line of the file performs, if any. */
  function LineEntry(raw: string): Option<(string, string)> {
    TrimmedEntry(Trim(raw))
  }

  /** The write of a line once trimmed: none for a blank line, a comment, or `=` missing or first. */
  function TrimmedEntry(line: string): Option<(string, string)> {
    if line == "" || line[0] == '#' then None
    else
      var idx := IndexOf(line, '=');
      if idx <= 0 then None
      else Some((Trim(line[..idx]), Trim(line[idx + 1..])))
  }

  /** A written key is non-empty, holds no `=`, and key and value are trimmed. */
  lemma LineEntryKey(raw: string)
    ensures var e := LineEntry(raw);
      e.Some? ==> e.value.0 != "" && '=' !in e.value.0 && Trim(e.value.0) == e.value.0 && Trim(e.value.1) == e.value.1
  {
    var line := Trim(raw);
    if line != "" && line[0] != '#' {
      var idx := IndexOf(line, '=');
      if idx > 0 {
        TrimEnds(raw);
        assert line[..idx][0] == line[0];
        TrimNonEmpty(line[..idx]);
        TrimKeepsOut(line[..idx], '=');
        TrimIdempotent(line[..idx]);
        TrimIdempotent(line[idx + 1..]);
      }
    }
  }

  predicate DefinesKey(raw: string, k: string) {
    Dicts.Writes(LineEntry(raw), k)
  }

  /** The dictionary `loadEnv` builds from the lines of the file. */
  function EnvOfLines(lines: seq<string>): Env {
    Dicts.Assign(Seqs.MapSeq(lines, LineEntry))
  }

  /** `loadEnv`: a missing file gives the empty dictionary. */
  function EnvOfFile(file: Option<string>): Env {
    if file.None? then map[] else EnvOfLines(Split(file.value, '\n'))
  }

  /** The body of the loop of `loadEnv` for one line: the write it performs, if any. */
  method ReadLine(raw: string) returns (e: Option<(string, string)>)
    ensures e == LineEntry(raw)
    ensures var line := Trim(raw);
      e.None? <==> line == "" || line[0] == '#' || line[0] == '=' || '=' !in line
    ensures var line := Trim(raw);
      e.Some? ==> exists idx :: (0 < idx < |line| && line[idx] == '=' && '=' !in line[..idx]
        && e.value == (Trim(line[..idx]), Trim(line[idx + 1..])))
  {
    var line := Trim(raw);
    if line == "" || line[0] == '#' {
      return None;
    }
    var idx := IndexOf(line, '=');
    if idx <= 0 {
      return None;
    }
    var key := Trim(line[..idx]);
    var value := Trim(line[idx + 1..]);
    return Some((key, value));
  }

  /** One iteration of the loop of `loadEnv`: `out[key] = value` for a line that defines `key`. */
  method ApplyLine(env: Env, raw: string) returns (next: Env)
    ensures LineEntry(raw).Some? ==> next == env[LineEntry(raw).value.0 := LineEntry(raw).value.1]
    ensures LineEntry(raw).None? ==> next == env
  {
    var e := ReadLine(raw);
    next := env;
    if e.Some? {
      next := env[e.value.0 := e.value.1];
    }
  }

  method LoadEnv(file: Option<string>) returns (out: Env)
    ensures out == EnvOfFile(file)
    ensures forall k :: k in out ==> k != "" && '=' !in k
  {
    if file.None? {
      return map[];
    }
    var lines := Split(file.value, '\n');
    out := LoadLines(lines);
    EnvKeys(lines);
  }

  /** The loop of `loadEnv` over the lines of the file. */
  method LoadLines(lines: seq<string>) returns (out: Env)
    ensures out == EnvOfLines(lines)
  {
    out := map[];
    for i := 0 to |lines|
      invariant out == EnvOfLines(lines[..i])
    {
      Dicts.AssignMapNext(lines, i, LineEntry);
      out := ApplyLine(out, lines[i]);
    }
    assert lines[..|lines|] == lines;
  }

  /** Every key of the parsed file is non-empty and holds no `=`. */
  lemma EnvKeys(lines: seq<string>)
    ensures forall k :: k in EnvOfLines(lines) ==> k != "" && '=' !in k
  {
    var entries := Seqs.MapSeq(lines, LineEntry);
    forall k | k in EnvOfLines(lines)
      ensures k != "" && '=' !in k
    {
      Dicts.AssignKeys(entries, k);
      var i :| 0 <= i < |entries| && Dicts.Writes(entries[i], k);
      LineEntryKey(lines[i]);
    }
  }

  /** A key is in the dictionary exactly when some line defines it. */
  lemma EnvDefinedKeys(lines: seq<string>, k: string)
    ensures k in EnvOfLines(lines) <==> exists i :: 0 <= i < |lines| && DefinesKey(lines[i], k)
  {
    var entries := Seqs.MapSeq(lines, LineEntry);
    Dicts.AssignKeys(entries, k);
    assert forall i :: 0 <= i < |lines| ==> (DefinesKey(lines[i], k) <==> Dicts.Writes(entries[i], k));
  }

  /** A later definition of a key overwrites every earlier one. */
  lemma EnvLastDefinitionWins(lines: seq<string>, i: nat, k: string, v: string)
    requires i < |lines| && LineEntry(lines[i]) == Some((k, v))
    requires forall j :: i < j < |lines| ==> !DefinesKey(lines[j], k)
    ensures k in EnvOfLines(lines) && EnvOfLines(lines)[k] == v
  {
    var entries := Seqs.MapSeq(lines, LineEntry);
    Dicts.AssignLast(entries, i, k, v);
  }

  /** Blank lines, `#` comments and lines without a key before `=` change nothing. */
  lemma IgnoredLine(lines: seq<string>, raw: string)
    requires Trim(raw) == "" || Trim(raw)[0] == '#' || IndexOf(Trim(raw), '=') <= 0
    ensures EnvOfLines(lines + [raw]) == EnvOfLines(lines)
  {
    Seqs.MapConcat(lines, [raw], LineEntry);
    Dicts.AssignSnoc(Seqs.MapSeq(lines, LineEntry), LineEntry(raw));
  }

  /** A value counts as set when present and non-empty (`a || b` on strings). */
  predicate IsSet(m: Env, key: string) {
    key in m && m[key] != ""
  }

  /** `requiredEnv`: `process.env[key] || env[key]`, failing when neither is set. */
  function RequiredEnv(proc: Env, env: Env, key: string): (r: Result<string>)
    ensures r.Success? <==> IsSet(proc, key) || IsSet(env, key)
    ensures r.Success? ==> r.value != ""
    ensures IsSet(proc, key) ==> r == Success(proc[key])
    ensures !IsSet(proc, key) && IsSet(env, key) ==> r == Success(env[key])
    ensures r.Failure? ==> r.error == "Missing env: " + key
  {
    if IsSet(proc, key) then Success(proc[key])
    else if IsSet(env, key) then Success(env[key])
    else Failure("Missing env: " + key)
  }

  /** Whether some lookup of a `||` chain is set. */
  predicate AnySet(lookups: seq<(Env, string)>) {
    exists i :: 0 <= i < |lookups| && SetAt(lookups, i)
  }

  /** Lookup `i` of a `||` chain is set. */
  predicate SetAt(lookups: seq<(Env, string)>, i: int) {
    0 <= i < |lookups| && IsSet(lookups[i].0, lookups[i].1)
  }

  /** Lookup `i` is the first of the chain that is set. */
  predicate FirstSetAt(lookups: seq<(Env, string)>, i: int) {
    SetAt(lookups, i) && forall j :: 0 <= j < i ==> !SetAt(lookups, j)
  }

  /** The position of the first lookup that is set, `|lookups|` when there is none. */
  function FirstIndex(lookups: seq<(Env, string)>): (i: nat)
    ensures i <= |lookups|
    ensures forall j :: 0 <= j < i ==> !SetAt(lookups, j)
    ensures i < |lookups| ==> SetAt(lookups, i)
  {
    if lookups == [] then 0
    else if IsSet(lookups[0].0, lookups[0].1) then 0
    else
      var i := FirstIndex(lookups[1..]) + 1;
      assert forall j :: 1 <= j < |lookups| ==> SetAt(lookups, j) == SetAt(lookups[1..], j - 1);
      i
  }

  /** The first of the given lookups that is set, in the order of a `||` chain. */
  function FirstSet(lookups: seq<(Env, string)>): (r: Option<string>)
    ensures r.Some? <==> AnySet(lookups)
    ensures r.Some? ==> r.value != ""
    ensures lookups != [] && IsSet(lookups[0].0, lookups[0].1) ==> r == Some(lookups[0].0[lookups[0].1])
    ensures r.Some? ==> FirstSetAt(lookups, FirstIndex(lookups)) && r.value == lookups[FirstIndex(lookups)].0[lookups[FirstIndex(lookups)].1]
  {
    var i := FirstIndex(lookups);
    if i == |lookups| then None else Some(lookups[i].0[lookups[i].1])
  }

  function EmailLookups(proc: Env, env: Env): seq<(Env, string)> {
    [(proc, "POCKETBASE_ADMIN_EMAIL"), (proc, "POCKETBASE_SUPERUSER_EMAIL"),
     (env, "POCKETBASE_ADMIN_EMAIL"), (env, "POCKETBASE_SUPERUSER_EMAIL")]
  }

  function PasswordLookups(proc: Env, env: Env): seq<(Env, string)> {
    [(proc, "POCKETBASE_ADMIN_PASSWORD"), (proc, "POCKETBASE_SUPERUSER_PASSWORD"),
     (env, "POCKETBASE_ADMIN_PASSWORD"), (env, "POCKETBASE_SUPERUSER_PASSWORD")]
  }

  /** The message `run` throws when no e-mail or no password is set. */
  const CredentialsError := "Missing PocketBase admin credentials: POCKETBASE_ADMIN_EMAIL/POCKETBASE_ADMIN_PASSWORD"

  /**
   * The superuser e-mail and password: the admin names before the superuser
   * names, the process environment before the file.
   */
  function AdminCredentials(proc: Env, env: Env): (r: Result<(string, string)>)
    ensures r.Success? <==> AnySet(EmailLookups(proc, env)) && AnySet(PasswordLookups(proc, env))
    ensures r.Success? ==> r.value.0 != "" && r.value.1 != ""
    ensures r.Success? && IsSet(proc, "POCKETBASE_ADMIN_EMAIL") ==> r.value.0 == proc["POCKETBASE_ADMIN_EMAIL"]
    ensures r.Success? && IsSet(proc, "POCKETBASE_ADMIN_PASSWORD") ==> r.value.1 == proc["POCKETBASE_ADMIN_PASSWORD"]
    ensures r.Failure? ==> r.error == CredentialsError
  {
    var email := FirstSet(EmailLookups(proc, env));
    var password := FirstSet(PasswordLookups(proc, env));
    if email.None? || password.None? then
      Failure(CredentialsError)
    else
      Success((email.value, password.value))
  }

  /** `NEXT_PUBLIC_NOCODB_BASE_TITLE` from the process environment, else `keepfit`. */
  function BaseTitle(proc: Env): (t: string)
    ensures t != ""
    ensures IsSet(proc, "NEXT_PUBLIC_NOCODB_BASE_TITLE") ==> t == proc["NEXT_PUBLIC_NOCODB_BASE_TITLE"]
    ensures !IsSet(proc, "NEXT_PUBLIC_NOCODB_BASE_TITLE") ==> t == "keepfit"
  {
    if IsSet(proc, "NEXT_PUBLIC_NOCODB_BASE_TITLE") then proc["NEXT_PUBLIC_NOCODB_BASE_TITLE"] else "keepfit"
  }
}
