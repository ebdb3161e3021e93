/**
 * The request loops of the migration (scripts/migrate-nocodb-to-pocketbase.js):
 * paging through a NocoDB table, emptying a PocketBase collection, the
 * two-endpoint PocketBase login, resolving the NocoDB base and table ids and
 * downloading an attachment. Each is a method on the in-memory stores, proved
 * against a function of the stores' initial state that gives its result and
 * the requests it issues.
 */
module MigrateLoops {
  import opened Wrappers
  import opened Js
  import opened Stores
  import Seqs
  import Dicts
  import MigrateMappers

  // ------------------------------------------------------- listAllNocoRows

  const NocoPageSize: nat := 200

  /** A row as the records API returns it: its fields and its `Id`. */
  function RowRecord(r: NocoRow): Record {
    r.fields["Id" := Num(r.id as real)]
  }

  /** The first `k` page requests: offsets 0, 200, 400, ... */
  function PageRequests(tableId: string, k: nat): (calls: seq<NocoCall>)
    ensures |calls| == k
    ensures forall j :: 0 <= j < k ==> calls[j] == ListRowsCall(tableId, NocoPageSize, NocoPageSize * j)
  {
    seq(k, (j: int) => ListRowsCall(tableId, NocoPageSize, NocoPageSize * (if j < 0 then 0 else j)))
  }

  lemma PageRequestsSnoc(tableId: string, k: nat)
    ensures PageRequests(tableId, k) + [ListRowsCall(tableId, NocoPageSize, NocoPageSize * k)] == PageRequests(tableId, k + 1)
  {
  }

  /** Reading the page at `offset` extends the rows read so far; a short page ends the table. */
  lemma PageStep<T>(all: seq<T>, offset: nat, list: seq<T>)
    requires offset <= |all| && list == Window(all, offset, NocoPageSize)
    ensures offset + |list| <= |all|
    ensures all[..offset] + list == all[..offset + |list|]
    ensures |list| < NocoPageSize <==> offset + NocoPageSize > |all|
    ensures |list| < NocoPageSize ==> all[..offset + |list|] == all
  {
  }

  /** The rows read after one more page. */
  lemma ReadPage(all: seq<NocoRow>, offset: nat, list: seq<NocoRow>, out: seq<Record>)
    requires offset + |list| <= |all| && all[..offset] + list == all[..offset + |list|]
    requires out == Seqs.MapSeq(all[..offset], RowRecord)
    ensures out + Seqs.MapSeq(list, RowRecord) == Seqs.MapSeq(all[..offset + |list|], RowRecord)
  {
    Seqs.MapConcat(all[..offset], list, RowRecord);
  }

  /**
   * `listAllNocoRows`: reads pages of 200 at offsets 0, 200, 400, ... until
   * the first page shorter than 200, so one request more than the table has
   * full pages, and returns every row of the table in order.
   */
  method ListAllNocoRows(noco: NocoDb, tableId: string) returns (r: Result<seq<Record>>)
    modifies noco
    ensures r.Success? <==> tableId in old(noco.rows)
    ensures r.Success? ==> r.value == Seqs.MapSeq(old(noco.rows)[tableId], RowRecord)
    ensures r.Success? ==> noco.calls == old(noco.calls) + PageRequests(tableId, |old(noco.rows)[tableId]| / NocoPageSize + 1)
    ensures r.Failure? ==> noco.calls == old(noco.calls) + [ListRowsCall(tableId, NocoPageSize, 0)]
    ensures noco.bases == old(noco.bases) && noco.tables == old(noco.tables) && noco.rows == old(noco.rows)
    ensures noco.nextId == old(noco.nextId)
  {
    ghost var all := if tableId in noco.rows then noco.rows[tableId] else [];
    var offset := 0;
    ghost var k := 0;
    var out := [];
    while true
      invariant noco.bases == old(noco.bases) && noco.tables == old(noco.tables) && noco.rows == old(noco.rows)
      invariant noco.nextId == old(noco.nextId)
      invariant offset <= |all|
      invariant offset > 0 ==> tableId in noco.rows
      invariant out == Seqs.MapSeq(all[..offset], RowRecord)
      invariant offset == NocoPageSize * k
      invariant noco.calls == old(noco.calls) + PageRequests(tableId, k)
      decreases |all| - offset
    {
      PageRequestsSnoc(tableId, k);
      var response := noco.ListRows(tableId, NocoPageSize, offset);
      if response.Failure? {
        return Failure(response.error);
      }
      var list := response.value;
      PageStep(all, offset, list);
      ReadPage(all, offset, list, out);
      out := out + Seqs.MapSeq(list, RowRecord);
      if |list| < NocoPageSize {
        assert k == |all| / NocoPageSize;
        return Success(out);
      }
      offset := offset + NocoPageSize;
      k := k + 1;
    }
  }

  // ----------------------------------------------- clearPocketBaseCollection

  const PbPageSize: nat := 200

  function DeleteCalls(c: string, items: seq<PbRecord>): (calls: seq<PbCall>)
    ensures |calls| == |items|
    ensures forall i :: 0 <= i < |items| ==> calls[i] == DeleteCall(c, items[i].id)
  {
    Seqs.MapSeq(items, (r: PbRecord) => DeleteCall(c, r.id))
  }

  /**
   * The requests `clearPocketBaseCollection` issues on a collection whose
   * records, newest first, are `newest`: list page 1, delete what it holds,
   * and stop at an empty page or one shorter than 200.
   */
  function ClearCalls(c: string, newest: seq<PbRecord>): seq<PbCall>
    decreases |newest|
  {
    [ListPageCall(c, 1, PbPageSize)] +
    if newest == [] then []
    else if |newest| < PbPageSize then DeleteCalls(c, newest)
    else DeleteCalls(c, newest[..PbPageSize]) + ClearCalls(c, newest[PbPageSize..])
  }

  predicate IsDelete(call: PbCall) {
    call.DeleteCall?
  }

  /** Clearing deletes every record, newest first, each exactly once. */
  lemma {:induction false} ClearCallsDeletes(c: string, newest: seq<PbRecord>)
    ensures Seqs.Filter(ClearCalls(c, newest), IsDelete) == DeleteCalls(c, newest)
    decreases |newest|
  {
    var list := ListPageCall(c, 1, PbPageSize);
    var none: seq<PbCall> := [];
    if newest == [] {
      assert ClearCalls(c, newest) == [list] + (none + none);
      Seqs.FilterRound(list, none, none, IsDelete);
    } else if |newest| < PbPageSize {
      assert ClearCalls(c, newest) == [list] + (DeleteCalls(c, newest) + none);
      Seqs.FilterRound(list, DeleteCalls(c, newest), none, IsDelete);
    } else {
      var first := DeleteCalls(c, newest[..PbPageSize]);
      var rest := ClearCalls(c, newest[PbPageSize..]);
      ClearCallsDeletes(c, newest[PbPageSize..]);
      assert ClearCalls(c, newest) == [list] + (first + rest);
      Seqs.FilterRound(list, first, rest, IsDelete);
      DeleteCallsSplit(c, newest, PbPageSize);
    }
  }

  lemma DeleteCallsNext(c: string, items: seq<PbRecord>, j: nat)
    requires j < |items|
    ensures DeleteCalls(c, items[..j + 1]) == DeleteCalls(c, items[..j]) + [DeleteCall(c, items[j].id)]
  {
  }

  lemma DeleteCallsSplit(c: string, items: seq<PbRecord>, k: nat)
    requires k <= |items|
    ensures DeleteCalls(c, items) == DeleteCalls(c, items[..k]) + DeleteCalls(c, items[k..])
  {
  }

  /** Clearing issues nothing but page reads and deletes. */
  lemma {:induction false} ClearCallsKinds(c: string, newest: seq<PbRecord>)
    ensures forall i :: 0 <= i < |ClearCalls(c, newest)| ==> ClearCalls(c, newest)[i].ListPageCall? || ClearCalls(c, newest)[i].DeleteCall?
    decreases |newest|
  {
    if |newest| >= PbPageSize {
      ClearCallsKinds(c, newest[PbPageSize..]);
      var first := DeleteCalls(c, newest[..PbPageSize]);
      var rest := ClearCalls(c, newest[PbPageSize..]);
      assert ClearCalls(c, newest) == [ListPageCall(c, 1, PbPageSize)] + first + rest;
      forall i | 0 <= i < |ClearCalls(c, newest)|
        ensures ClearCalls(c, newest)[i].ListPageCall? || ClearCalls(c, newest)[i].DeleteCall?
      {
        if i > |first| {
          assert ClearCalls(c, newest)[i] == rest[i - 1 - |first|];
        }
      }
    }
  }

  lemma ReversedPrefix<T>(s: seq<T>, k: nat)
    requires k <= |s|
    ensures Reversed(s[..k]) == Reversed(s)[|s| - k..]
  {
    var a := Reversed(s[..k]);
    var b := Reversed(s)[|s| - k..];
    assert |a| == |b|;
    forall i | 0 <= i < k ensures a[i] == b[i] {
      assert a[i] == s[..k][k - 1 - i] == s[k - 1 - i];
      assert b[i] == Reversed(s)[|s| - k + i] == s[k - 1 - i];
    }
  }

  /** One round of clearing: list the first page, delete what it holds, and go on only after a full page. */
  lemma ClearStep(c: string, newest: seq<PbRecord>, items: seq<PbRecord>)
    requires newest != [] && |items| == (if |newest| < PbPageSize then |newest| else PbPageSize)
    requires items == newest[..|items|]
    ensures |items| < PbPageSize ==> ClearCalls(c, newest) == [ListPageCall(c, 1, PbPageSize)] + DeleteCalls(c, items)
    ensures |items| >= PbPageSize ==>
      ClearCalls(c, newest) == [ListPageCall(c, 1, PbPageSize)] + DeleteCalls(c, items) + ClearCalls(c, newest[PbPageSize..])
  {
    if |items| < PbPageSize {
      assert items == newest;
    }
  }

  /** The `j`-th listed record is the newest one left, so deleting it drops the last record. */
  lemma DeleteStep(cur: seq<PbRecord>, items: seq<PbRecord>, j: nat)
    requires DistinctRecordIds(cur)
    requires j < |items| <= |cur| && items == Reversed(cur)[..|items|]
    ensures HasRecord(cur[..|cur| - j], items[j].id)
    ensures WithoutRecord(cur[..|cur| - j], items[j].id) == cur[..|cur| - (j + 1)]
  {
    var now := cur[..|cur| - j];
    assert now[|now| - 1] == items[j];
    assert DistinctRecordIds(now) by {
      forall a, b | 0 <= a < b < |now| ensures now[a].id != now[b].id {
        assert now[a] == cur[a] && now[b] == cur[b];
      }
    }
    WithoutLastRecord(now);
    assert now[..|now| - 1] == cur[..|cur| - (j + 1)];
  }

  /** The first page, newest first, of what is left after `deleted` deletions of the newest records. */
  lemma FirstPage(orig: seq<PbRecord>, deleted: nat, items: seq<PbRecord>)
    requires deleted <= |orig|
    requires items == Page(Reversed(orig[..|orig| - deleted]), 1, PbPageSize)
    ensures Reversed(orig[..|orig| - deleted]) == Reversed(orig)[deleted..]
    ensures |items| == if |orig| - deleted < PbPageSize then |orig| - deleted else PbPageSize
    ensures items == Reversed(orig)[deleted..][..|items|]
    ensures |items| >= PbPageSize ==> Reversed(orig)[deleted..][PbPageSize..] == Reversed(orig)[deleted + PbPageSize..]
    ensures orig[..|orig| - deleted][..|orig| - deleted - |items|] == orig[..|orig| - (deleted + |items|)]
    ensures |items| == 0 ==> orig[..|orig| - deleted] == []
  {
    ReversedPrefix(orig, |orig| - deleted);
  }

  /** The trace after one round of clearing, given the trace before it. */
  lemma ClearRound(total: seq<PbCall>, before: seq<PbCall>, c: string, newest: seq<PbRecord>, items: seq<PbRecord>, after: seq<PbCall>)
    requires total == before + ClearCalls(c, newest)
    requires newest != [] && |items| == (if |newest| < PbPageSize then |newest| else PbPageSize)
    requires items == newest[..|items|]
    requires after == before + [ListPageCall(c, 1, PbPageSize)] + DeleteCalls(c, items)
    ensures |items| < PbPageSize ==> total == after
    ensures |items| >= PbPageSize ==> total == after + ClearCalls(c, newest[PbPageSize..])
  {
    ClearStep(c, newest, items);
    var head := [ListPageCall(c, 1, PbPageSize)] + DeleteCalls(c, items);
    Seqs.AppendAssoc(before, [ListPageCall(c, 1, PbPageSize)], DeleteCalls(c, items));
    if |items| >= PbPageSize {
      Seqs.AppendAssoc(before, head, ClearCalls(c, newest[PbPageSize..]));
    }
  }

  /** The inner loop of `clearPocketBaseCollection`: deletes the listed records, newest first. */
  method DeletePage(pb: PocketBase, c: string, items: seq<PbRecord>, ghost cur: seq<PbRecord>) returns (n: nat)
    requires pb.Valid() && c in pb.collections && pb.collections[c] == cur
    requires |items| <= |cur| && items == Reversed(cur)[..|items|]
    modifies pb
    ensures pb.Valid() && pb.nextId == old(pb.nextId)
    ensures n == |items|
    ensures pb.collections == old(pb.collections)[c := cur[..|cur| - |items|]]
    ensures pb.calls == old(pb.calls) + DeleteCalls(c, items)
  {
    n := 0;
    assert cur[..|cur|] == cur;
    assert pb.collections[c := cur] == pb.collections;
    for j := 0 to |items|
      invariant pb.Valid() && pb.nextId == old(pb.nextId)
      invariant pb.collections == old(pb.collections)[c := cur[..|cur| - j]]
      invariant n == j
      invariant pb.calls == old(pb.calls) + DeleteCalls(c, items[..j])
    {
      DeleteStep(cur, items, j);
      var d := pb.Delete(c, items[j].id);
      Dicts.UpdateTwice(old(pb.collections), c, cur[..|cur| - j], cur[..|cur| - (j + 1)]);
      DeleteCallsNext(c, items, j);
      Seqs.AppendAssoc(old(pb.calls), DeleteCalls(c, items[..j]), [DeleteCall(c, items[j].id)]);
      n := n + 1;
    }
    assert items[..|items|] == items;
  }

  /**
   * One round of `clearPocketBaseCollection`: list page 1 newest first and
   * delete every record on it. `deleted` records of `orig` are gone already.
   * A short page ends the clearing; a full one leaves the rest to the next round.
   */
  method ClearPage(pb: PocketBase, c: string, ghost orig: seq<PbRecord>, deleted: nat) returns (r: Result<nat>)
    requires pb.Valid() && deleted <= |orig|
    requires c in pb.collections ==> pb.collections[c] == orig[..|orig| - deleted]
    modifies pb
    ensures pb.Valid() && pb.nextId == old(pb.nextId)
    ensures r.Success? <==> c in old(pb.collections)
    ensures r.Failure? ==> pb.collections == old(pb.collections) && pb.calls == old(pb.calls) + [ListPageCall(c, 1, PbPageSize)]
    ensures r.Success? ==> deleted + r.value <= |orig| && pb.collections == old(pb.collections)[c := orig[..|orig| - (deleted + r.value)]]
    ensures r.Success? && r.value < PbPageSize ==>
      deleted + r.value == |orig| && pb.calls == old(pb.calls) + ClearCalls(c, Reversed(orig)[deleted..])
    ensures r.Success? && r.value >= PbPageSize ==>
      r.value == PbPageSize &&
      old(pb.calls) + ClearCalls(c, Reversed(orig)[deleted..]) == pb.calls + ClearCalls(c, Reversed(orig)[deleted + PbPageSize..])
  {
    ghost var cur := orig[..|orig| - deleted];
    ghost var before := pb.calls;
    var response := pb.ListPage(c, 1, PbPageSize);
    if response.Failure? {
      return Failure(response.error);
    }
    var items := response.value;
    FirstPage(orig, deleted, items);
    if |items| == 0 {
      assert pb.collections[c := cur] == pb.collections;
      return Success(0);
    }
    var n := DeletePage(pb, c, items, cur);
    ClearRound(before + ClearCalls(c, Reversed(orig)[deleted..]), before, c, Reversed(orig)[deleted..], items, pb.calls);
    return Success(n);
  }

  /**
   * `clearPocketBaseCollection`: repeatedly lists page 1 newest first and
   * deletes every record on it, until a page is empty or shorter than 200.
   * It returns how many records it deleted, which is how many the collection
   * held, and leaves the collection empty.
   */
  method ClearCollection(pb: PocketBase, c: string) returns (r: Result<nat>)
    requires pb.Valid()
    modifies pb
    ensures pb.Valid()
    ensures r.Success? <==> c in old(pb.collections)
    ensures r.Success? ==> r.value == |old(pb.collections)[c]| && pb.collections == old(pb.collections)[c := []]
    ensures r.Success? ==> pb.calls == old(pb.calls) + ClearCalls(c, Reversed(old(pb.collections)[c]))
    ensures r.Failure? ==> pb.collections == old(pb.collections) && pb.calls == old(pb.calls) + [ListPageCall(c, 1, PbPageSize)]
    ensures pb.nextId == old(pb.nextId)
  {
    ghost var orig := if c in pb.collections then pb.collections[c] else [];
    if c in pb.collections {
      assert orig[..|orig|] == orig;
      assert pb.collections[c := orig] == pb.collections;
    }
    ghost var whole := old(pb.calls) + ClearCalls(c, Reversed(orig));
    var deleted := 0;
    while true
      invariant pb.Valid() && pb.nextId == old(pb.nextId)
      invariant deleted <= |orig|
      invariant deleted > 0 ==> c in old(pb.collections)
      invariant deleted == 0 ==> pb.collections == old(pb.collections) && pb.calls == old(pb.calls)
      invariant c in old(pb.collections) ==> pb.collections == old(pb.collections)[c := orig[..|orig| - deleted]]
      invariant c in old(pb.collections) ==> whole == pb.calls + ClearCalls(c, Reversed(orig)[deleted..])
      decreases |orig| - deleted
    {
      var page := ClearPage(pb, c, orig, deleted);
      if page.Failure? {
        return Failure(page.error);
      }
      deleted := deleted + page.value;
      if page.value < PbPageSize {
        return Success(deleted);
      }
    }
  }

  // ------------------------------------------------------------------ pbAuth

  const AuthEndpoints: seq<AuthEndpoint> := [SuperusersAuth, AdminsAuth]

  /** A login answer counts when it carries a non-empty token. */
  predicate Token(reply: Result<string>) {
    reply.Success? && reply.value != ""
  }

  /**
   * The outcome of `pbAuth`: the token of the first endpoint, in the order
   * `_superusers` then `admins`, that returns one; otherwise an error naming
   * the last endpoint error, or `unknown error` when no endpoint failed.
   */
  function AuthOutcome(reply: (AuthEndpoint, string, string) -> Result<string>, email: string, password: string): (r: Result<string>)
    ensures r.Success? <==> Token(reply(SuperusersAuth, email, password)) || Token(reply(AdminsAuth, email, password))
    ensures Token(reply(SuperusersAuth, email, password)) ==> r == reply(SuperusersAuth, email, password)
    ensures !Token(reply(SuperusersAuth, email, password)) && Token(reply(AdminsAuth, email, password)) ==> r == reply(AdminsAuth, email, password)
    ensures r.Failure? ==> Strings.StartsWith(r.error, "PocketBase auth failed: ")
  {
    var first := reply(SuperusersAuth, email, password);
    var second := reply(AdminsAuth, email, password);
    if Token(first) then first
    else if Token(second) then second
    else
      var last := LastError([first, second]);
      Failure("PocketBase auth failed: " + if last.Some? then last.value else "unknown error")
  }

  /** The message of the last failed login, if any. */
  function LastError(replies: seq<Result<string>>): Option<string> {
    if replies == [] then None
    else if replies[|replies| - 1].Failure? then Some(replies[|replies| - 1].error)
    else LastError(replies[..|replies| - 1])
  }

  /** The logins `pbAuth` attempts: the second endpoint only when the first gives no token. */
  function AuthCalls(reply: (AuthEndpoint, string, string) -> Result<string>, email: string, password: string): seq<PbCall> {
    if Token(reply(SuperusersAuth, email, password)) then [AuthCall(SuperusersAuth, email, password)]
    else [AuthCall(SuperusersAuth, email, password), AuthCall(AdminsAuth, email, password)]
  }

  /** `pbAuth`: tries the endpoints in order, remembering the last error. */
  method PbAuth(pb: PocketBase, email: string, password: string) returns (r: Result<string>)
    modifies pb
    ensures r == AuthOutcome(pb.authReply, email, password)
    ensures pb.calls == old(pb.calls) + AuthCalls(pb.authReply, email, password)
    ensures pb.collections == old(pb.collections) && pb.nextId == old(pb.nextId)
  {
    var lastError: Option<string> := None;
    for i := 0 to |AuthEndpoints|
      invariant pb.collections == old(pb.collections) && pb.nextId == old(pb.nextId)
      invariant forall j :: 0 <= j < i ==> !Token(pb.authReply(AuthEndpoints[j], email, password))
      invariant i == 0 ==> pb.calls == old(pb.calls) && lastError == None
      invariant i == 1 ==> pb.calls == old(pb.calls) + [AuthCall(SuperusersAuth, email, password)]
      invariant i == 2 ==> pb.calls == old(pb.calls) + [AuthCall(SuperusersAuth, email, password), AuthCall(AdminsAuth, email, password)]
      invariant i == 1 ==> lastError == LastError([pb.authReply(SuperusersAuth, email, password)])
      invariant i == 2 ==> lastError == LastError([pb.authReply(SuperusersAuth, email, password), pb.authReply(AdminsAuth, email, password)])
    {
      var response := pb.Auth(AuthEndpoints[i], email, password);
      if response.Success? && response.value != "" {
        assert AuthEndpoints[0] == SuperusersAuth && AuthEndpoints[1] == AdminsAuth;
        if i == 1 {
          assert !Token(pb.authReply(AuthEndpoints[0], email, password));
          assert pb.calls == old(pb.calls) + [AuthCall(SuperusersAuth, email, password), AuthCall(AdminsAuth, email, password)];
        }
        return response;
      }
      if response.Failure? {
        lastError := Some(response.error);
      }
    }
    assert AuthEndpoints[0] == SuperusersAuth && AuthEndpoints[1] == AdminsAuth;
    assert !Token(pb.authReply(AuthEndpoints[0], email, password)) && !Token(pb.authReply(AuthEndpoints[1], email, password));
    var message := if lastError.Some? then lastError.value else "unknown error";
    r := Failure("PocketBase auth failed: " + message);
  }

  // ----------------------------------------------------- resolveNocoBaseId

  /** `bases[i]` is the first base titled `title`. */
  predicate FirstWithTitle(bases: seq<NocoBase>, i: int, title: string) {
    0 <= i < |bases| && bases[i].title == title && forall j :: 0 <= j < i ==> bases[j].title != title
  }

  /** `list.find((item) => item.title === title)`. */
  function FindBase(bases: seq<NocoBase>, title: string): (r: Option<NocoBase>)
    ensures r.Some? <==> exists i :: 0 <= i < |bases| && bases[i].title == title
    ensures r.Some? ==> exists i :: FirstWithTitle(bases, i, title) && bases[i] == r.value
  {
    if bases == [] then None
    else if bases[0].title == title then Some(bases[0])
    else
      var r := FindBase(bases[1..], title);
      assert forall i :: 1 <= i < |bases| ==> bases[i] == bases[1..][i - 1];
      r
  }

  /** The id `resolveNocoBaseId` returns: that of the first base with the title, which must be non-empty. */
  function BaseIdOf(bases: seq<NocoBase>, title: string): (r: Result<string>)
    ensures r.Success? <==> FindBase(bases, title).Some? && FindBase(bases, title).value.id != ""
    ensures r.Success? ==> r.value == FindBase(bases, title).value.id
    ensures r.Failure? ==> r.error == "NocoDB base not found: " + title
  {
    var found := FindBase(bases, title);
    if found.None? || found.value.id == "" then Failure("NocoDB base not found: " + title) else Success(found.value.id)
  }

  method ResolveNocoBaseId(noco: NocoDb, title: string) returns (r: Result<string>)
    modifies noco
    ensures r == BaseIdOf(old(noco.bases), title)
    ensures noco.calls == old(noco.calls) + [ListBasesCall]
    ensures noco.bases == old(noco.bases) && noco.tables == old(noco.tables) && noco.rows == old(noco.rows)
    ensures noco.nextId == old(noco.nextId)
  {
    var list := noco.ListBases();
    var found := FindBase(list, title);
    if found.None? || found.value.id == "" {
      return Failure("NocoDB base not found: " + title);
    }
    return Success(found.value.id);
  }

  // --------------------------------------------------- resolveNocoTableIds

  /** `item.title || item.table_name`. */
  function TableTitle(t: NocoTable): string {
    if t.title != "" then t.title else t.tableName
  }

  /** The write one table makes to the id map: none when its title or id is empty. */
  function TableEntry(t: NocoTable): Option<(string, string)> {
    if TableTitle(t) != "" && t.id != "" then Some((TableTitle(t), t.id)) else None
  }

  function TableIdMap(tables: seq<NocoTable>): map<string, string> {
    Dicts.Assign(Seqs.MapSeq(tables, TableEntry))
  }

  /**
   * A title is in the map exactly when some table with a non-empty id has it
   * as its title (or, lacking one, its table name); every id in the map is
   * non-empty, and a later table of the same title wins.
   */
  lemma TableIdMapKeys(tables: seq<NocoTable>, k: string)
    ensures k in TableIdMap(tables) <==> exists i :: 0 <= i < |tables| && TableTitle(tables[i]) == k && k != "" && tables[i].id != ""
    ensures k in TableIdMap(tables) ==> TableIdMap(tables)[k] != ""
    ensures k in TableIdMap(tables) ==> exists i :: 0 <= i < |tables| && TableTitle(tables[i]) == k && tables[i].id == TableIdMap(tables)[k]
  {
    var writes := Seqs.MapSeq(tables, TableEntry);
    Dicts.AssignKeys(writes, k);
    if k in TableIdMap(tables) {
      Dicts.AssignValues(writes, k);
    }
  }

  lemma TableIdMapLast(tables: seq<NocoTable>, i: nat)
    requires i < |tables| && TableEntry(tables[i]).Some?
    requires forall j :: i < j < |tables| ==> TableTitle(tables[j]) != TableTitle(tables[i]) || tables[j].id == ""
    ensures TableTitle(tables[i]) in TableIdMap(tables) && TableIdMap(tables)[TableTitle(tables[i])] == tables[i].id
  {
    Dicts.AssignLast(Seqs.MapSeq(tables, TableEntry), i, TableTitle(tables[i]), tables[i].id);
  }

  /** `resolveNocoTableIds`: fills a map from table title to id in a loop over the base's tables. */
  method ResolveTableIds(noco: NocoDb, baseId: string) returns (r: Result<map<string, string>>)
    modifies noco
    ensures r.Success? <==> baseId in old(noco.tables)
    ensures r.Success? ==> r.value == TableIdMap(old(noco.tables)[baseId])
    ensures noco.calls == old(noco.calls) + [ListTablesCall(baseId)]
    ensures noco.bases == old(noco.bases) && noco.tables == old(noco.tables) && noco.rows == old(noco.rows)
    ensures noco.nextId == old(noco.nextId)
  {
    var response := noco.ListTables(baseId);
    if response.Failure? {
      return Failure(response.error);
    }
    var list := response.value;
    ghost var writes := Seqs.MapSeq(list, TableEntry);
    var ids: map<string, string> := map[];
    for i := 0 to |list|
      invariant ids == Dicts.Assign(writes[..i])
      invariant noco.calls == old(noco.calls) + [ListTablesCall(baseId)]
      invariant noco.bases == old(noco.bases) && noco.tables == old(noco.tables) && noco.rows == old(noco.rows)
      invariant noco.nextId == old(noco.nextId)
    {
      assert writes[..i + 1] == writes[..i] + [writes[i]];
      Dicts.AssignSnoc(writes[..i], writes[i]);
      var item := list[i];
      var title := if item.title != "" then item.title else item.tableName;
      if title != "" && item.id != "" {
        ids := ids[title := item.id];
      }
    }
    assert writes[..|list|] == writes;
    return Success(ids);
  }

  // ----------------------------------------------------- buildAttachmentFile

  /** `attachment.mimetype || res.headers.get('content-type') || 'application/octet-stream'`. */
  function MimeOf(host: Host, attachment: Value, blob: Blob): string {
    ToStr(host, FirstTruthy([Prop(attachment, "mimetype"), Str(blob.contentType), Str("application/octet-stream")]))
  }

  /** `attachment.title || fallbackName`. */
  function FileNameOf(host: Host, attachment: Value, fallbackName: string): string {
    ToStr(host, FirstTruthy([Prop(attachment, "title"), Str(fallbackName)]))
  }

  /** `weight-photo-${Date.now()}`, the clock reading being a parameter. */
  function FallbackName(now: nat): string {
    "weight-photo-" + Decimal.NatToString(now)
  }

  /**
   * The file `buildAttachmentFile` produces from an attachment: none when it
   * has no path, a failure when resolving the URL throws or the server does
   * not serve it, and otherwise the served bytes under the attachment's title
   * and MIME type with their fallbacks.
   */
  function AttachmentFile(host: Host, files: map<string, Blob>, nocoUrl: string, attachment: Value, fallbackName: string): Result<Option<PbFile>> {
    match MigrateMappers.ResolveAttachmentUrl(host, nocoUrl, attachment)
    case Failure(e) => Failure(e)
    case Success(None) => Success(None)
    case Success(Some(url)) =>
      if url !in files then Failure("Download attachment failed: 404 " + url)
      else
        var blob := files[url];
        Success(Some(PbFile(FileNameOf(host, attachment, fallbackName), MimeOf(host, attachment, blob), blob.bytes)))
  }

  /**
   * Building the file fails when resolving the URL fails, gives nothing
   * exactly when the attachment resolves to no URL, and otherwise gives the
   * bytes served at the URL under the attachment's title (else the fallback
   * name) and MIME type (else the served content type, else
   * `application/octet-stream`).
   */
  lemma AttachmentFileCases(host: Host, files: map<string, Blob>, nocoUrl: string, attachment: Value, fallbackName: string)
    ensures var r := AttachmentFile(host, files, nocoUrl, attachment, fallbackName);
      var resolved := MigrateMappers.ResolveAttachmentUrl(host, nocoUrl, attachment);
      && (resolved.Failure? ==> r.Failure?)
      && (r == Success(None) <==> resolved == Success(None))
      && (r.Success? && r.value.Some? ==> (
        var url := resolved.value.value;
        && url in files && r.value.value.bytes == files[url].bytes
        && (Truthy(Prop(attachment, "title")) ==> r.value.value.name == ToStr(host, Prop(attachment, "title")))
        && (!Truthy(Prop(attachment, "title")) ==> r.value.value.name == fallbackName)
        && (Truthy(Prop(attachment, "mimetype")) ==> r.value.value.mime == ToStr(host, Prop(attachment, "mimetype")))
        && (!Truthy(Prop(attachment, "mimetype")) && files[url].contentType != "" ==> r.value.value.mime == files[url].contentType)
        && (!Truthy(Prop(attachment, "mimetype")) && files[url].contentType == "" ==> r.value.value.mime == "application/octet-stream")))
      && (resolved.Success? && resolved.value.Some? && resolved.value.value !in files ==>
        r == Failure("Download attachment failed: 404 " + resolved.value.value))
  {
    var resolved := MigrateMappers.ResolveAttachmentUrl(host, nocoUrl, attachment);
    if resolved.Success? && resolved.value.Some? && resolved.value.value in files {
      var blob := files[resolved.value.value];
      FirstTruthyPair(Prop(attachment, "title"), Str(fallbackName));
      FirstTruthyTriple(Prop(attachment, "mimetype"), Str(blob.contentType), Str("application/octet-stream"));
    }
  }

  /** The download `buildAttachmentFile` issues: one, when the attachment resolves to a URL. */
  function DownloadCalls(host: Host, nocoUrl: string, attachment: Value): seq<NocoCall> {
    match MigrateMappers.ResolveAttachmentUrl(host, nocoUrl, attachment)
    case Success(Some(url)) => [DownloadCall(url)]
    case _ => []
  }

  method BuildAttachmentFile(host: Host, noco: NocoDb, nocoUrl: string, attachment: Value, fallbackName: string)
    returns (r: Result<Option<PbFile>>)
    modifies noco
    ensures r == AttachmentFile(host, noco.files, nocoUrl, attachment, fallbackName)
    ensures noco.calls == old(noco.calls) + DownloadCalls(host, nocoUrl, attachment)
    ensures noco.bases == old(noco.bases) && noco.tables == old(noco.tables) && noco.rows == old(noco.rows)
    ensures noco.nextId == old(noco.nextId)
  {
    var fileUrl :- MigrateMappers.ResolveAttachmentUrl(host, nocoUrl, attachment);
    if fileUrl.None? {
      return Success(None);
    }
    var response := noco.Download(fileUrl.value);
    if response.Failure? {
      return Failure(response.error);
    }
    var blob := response.value;
    var mime := MimeOf(host, attachment, blob);
    var name := FileNameOf(host, attachment, fallbackName);
    return Success(Some(PbFile(name, mime, blob.bytes)));
  }
}
