/**
 * In-memory stand-ins for the two HTTP services the scripts talk to: a NocoDB
 * server (bases, tables, rows, downloadable attachment files) and a
 * PocketBase server (collections of records, password authentication, photo
 * uploads). Every request is appended to the store's `calls` trace, so that
 * the order in which a script issues requests can be stated. A request fails
 * exactly where the real server answers with an HTTP error: an unknown base,
 * table, collection or record id, a rejected payload or file, a missing file.
 */
module Stores {
  import opened Wrappers
  import opened Js
  import Seqs
  import Decimal

  // ------------------------------------------------------------------- NocoDB

  datatype NocoBase = NocoBase(id: string, title: string)

  datatype NocoTable = NocoTable(id: string, title: string, tableName: string)

  /** A row as stored: its numeric `Id` and its other fields. */
  datatype NocoRow = NocoRow(id: nat, fields: Record)

  /** A downloadable file: the `content-type` response header ("" when absent) and the body. */
  datatype Blob = Blob(contentType: string, bytes: seq<bv8>)

  datatype NocoCall =
    | ListBasesCall
    | CreateBaseCall(title: string)
    | ListTablesCall(baseId: string)
    | CreateTableCall(baseId: string, title: string)
    | ListRowsCall(tableId: string, limit: nat, offset: nat)
    | InsertRowsCall(tableId: string, batch: seq<Record>)
    | DeleteRowCall(tableId: string, rowId: nat)
    | CountRowsCall(tableId: string)
    | DownloadCall(url: string)

  /** `s.slice(offset, offset + limit)`. */
  function Window<T>(s: seq<T>, offset: nat, limit: nat): (w: seq<T>)
    ensures |w| == if offset >= |s| then 0 else if offset + limit <= |s| then limit else |s| - offset
  {
    if offset >= |s| then [] else if offset + limit <= |s| then s[offset..offset + limit] else s[offset..]
  }

  /** The rows of `s` other than the one whose id is `id`. */
  function WithoutRow(s: seq<NocoRow>, id: nat): seq<NocoRow> {
    Seqs.Filter(s, (r: NocoRow) => r.id != id)
  }

  predicate HasRow(s: seq<NocoRow>, id: nat) {
    exists i :: 0 <= i < |s| && s[i].id == id
  }

  /** Rows appended by an insert, numbered from `next`. */
  function NewRows(batch: seq<Record>, next: nat): (r: seq<NocoRow>)
    ensures |r| == |batch|
    ensures forall i :: 0 <= i < |r| ==> r[i] == NocoRow(next + i, batch[i])
  {
    seq(|batch|, i requires 0 <= i < |batch| => NocoRow(next + i, batch[i]))
  }

  predicate DistinctRowIds(s: seq<NocoRow>) {
    forall i, j :: 0 <= i < j < |s| ==> s[i].id != s[j].id
  }

  /** The error of a table request naming an unknown base. */
  function NoTablesError(baseId: string): string {
    "HTTP 404 /api/v1/db/meta/projects/" + baseId + "/tables"
  }

  /** The error of a record request naming an unknown table (or, for a delete, an unknown row). */
  function NoRecordsError(tableId: string): string {
    "HTTP 404 /api/v2/tables/" + tableId + "/records"
  }

  class NocoDb {
    var bases: seq<NocoBase>
    /** The tables of each base, by base id. */
    var tables: map<string, seq<NocoTable>>
    /** The rows of each table, by table id, in insertion order. */
    var rows: map<string, seq<NocoRow>>
    /** Attachment files by absolute URL. */
    const files: map<string, Blob>
    var nextId: nat
    var calls: seq<NocoCall>

    /** Row ids are distinct within a table and below `nextId`. */
    predicate Valid()
      reads this
    {
      forall t :: t in rows ==> DistinctRowIds(rows[t]) && forall r :: r in rows[t] ==> r.id < nextId
    }

    constructor (bases: seq<NocoBase>, tables: map<string, seq<NocoTable>>, rows: map<string, seq<NocoRow>>, files: map<string, Blob>, nextId: nat)
      ensures this.bases == bases && this.tables == tables && this.rows == rows && this.files == files
      ensures this.nextId == nextId && calls == []
    {
      this.bases := bases;
      this.tables := tables;
      this.rows := rows;
      this.files := files;
      this.nextId := nextId;
      calls := [];
    }

    /** `GET /api/v1/db/meta/projects`. */
    method ListBases() returns (r: seq<NocoBase>)
      modifies this
      ensures r == bases
      ensures bases == old(bases) && tables == old(tables) && rows == old(rows) && nextId == old(nextId)
      ensures calls == old(calls) + [ListBasesCall]
    {
      r := bases;
      calls := calls + [ListBasesCall];
    }

    /** `POST /api/v1/db/meta/projects`: a new empty base. */
    method CreateBase(title: string) returns (id: string)
      modifies this
      ensures id == "p" + Decimal.NatToString(old(nextId))
      ensures bases == old(bases) + [NocoBase(id, title)] && tables == old(tables)[id := []]
      ensures rows == old(rows) && nextId == old(nextId) + 1
      ensures calls == old(calls) + [CreateBaseCall(title)]
    {
      id := "p" + Decimal.NatToString(nextId);
      bases := bases + [NocoBase(id, title)];
      tables := tables[id := []];
      nextId := nextId + 1;
      calls := calls + [CreateBaseCall(title)];
    }

    /** `GET /api/v1/db/meta/projects/{baseId}/tables`: fails for an unknown base. */
    method ListTables(baseId: string) returns (r: Result<seq<NocoTable>>)
      modifies this
      ensures r.Success? <==> baseId in tables
      ensures r.Success? ==> r.value == tables[baseId]
      ensures r.Failure? ==> r.error == NoTablesError(baseId)
      ensures bases == old(bases) && tables == old(tables) && rows == old(rows) && nextId == old(nextId)
      ensures calls == old(calls) + [ListTablesCall(baseId)]
    {
      calls := calls + [ListTablesCall(baseId)];
      if baseId in tables {
        r := Success(tables[baseId]);
      } else {
        r := Failure(NoTablesError(baseId));
      }
    }

    /** `POST /api/v1/db/meta/projects/{baseId}/tables`: a new empty table whose title and table name are `title`. */
    method CreateTable(baseId: string, title: string) returns (r: Result<string>)
      requires Valid()
      modifies this
      ensures Valid()
      ensures r.Success? <==> baseId in old(tables)
      ensures r.Success? ==> (
        && r.value == "m" + Decimal.NatToString(old(nextId))
        && tables == old(tables)[baseId := old(tables)[baseId] + [NocoTable(r.value, title, title)]]
        && rows == old(rows)[r.value := []] && nextId == old(nextId) + 1)
      ensures r.Failure? ==> tables == old(tables) && rows == old(rows) && nextId == old(nextId)
      ensures bases == old(bases)
      ensures calls == old(calls) + [CreateTableCall(baseId, title)]
    {
      calls := calls + [CreateTableCall(baseId, title)];
      if baseId in tables {
        var id := "m" + Decimal.NatToString(nextId);
        tables := tables[baseId := tables[baseId] + [NocoTable(id, title, title)]];
        rows := rows[id := []];
        nextId := nextId + 1;
        r := Success(id);
      } else {
        r := Failure(NoTablesError(baseId));
      }
    }

    /** `GET /api/v2/tables/{tableId}/records?limit=..&offset=..`: one page, in insertion order. */
    method ListRows(tableId: string, limit: nat, offset: nat) returns (r: Result<seq<NocoRow>>)
      modifies this
      ensures r.Success? <==> tableId in rows
      ensures r.Success? ==> r.value == Window(rows[tableId], offset, limit)
      ensures r.Failure? ==> r.error == NoRecordsError(tableId)
      ensures bases == old(bases) && tables == old(tables) && rows == old(rows) && nextId == old(nextId)
      ensures calls == old(calls) + [ListRowsCall(tableId, limit, offset)]
    {
      calls := calls + [ListRowsCall(tableId, limit, offset)];
      if tableId in rows {
        r := Success(Window(rows[tableId], offset, limit));
      } else {
        r := Failure(NoRecordsError(tableId));
      }
    }

    /** `POST /api/v2/tables/{tableId}/records` with an array body: appends the rows with fresh ids. */
    method InsertRows(tableId: string, batch: seq<Record>) returns (r: Result<()>)
      requires Valid()
      modifies this
      ensures Valid()
      ensures r.Success? <==> tableId in old(rows)
      ensures r.Success? ==> (
        && rows == old(rows)[tableId := old(rows)[tableId] + NewRows(batch, old(nextId))]
        && nextId == old(nextId) + |batch|)
      ensures r.Failure? ==> rows == old(rows) && nextId == old(nextId)
      ensures bases == old(bases) && tables == old(tables)
      ensures calls == old(calls) + [InsertRowsCall(tableId, batch)]
    {
      calls := calls + [InsertRowsCall(tableId, batch)];
      if tableId in rows {
        var added := NewRows(batch, nextId);
        var s := rows[tableId] + added;
        forall i, j | 0 <= i < j < |s| ensures s[i].id != s[j].id {
          if j >= |rows[tableId]| && i < |rows[tableId]| {
            assert rows[tableId][i] in rows[tableId];
          }
        }
        rows := rows[tableId := s];
        nextId := nextId + |batch|;
        r := Success(());
      } else {
        r := Failure(NoRecordsError(tableId));
      }
    }

    /** `DELETE /api/v2/tables/{tableId}/records` with body `{ Id }`: fails for an unknown table or id. */
    method DeleteRow(tableId: string, id: nat) returns (r: Result<()>)
      requires Valid()
      modifies this
      ensures Valid()
      ensures r.Success? <==> tableId in old(rows) && HasRow(old(rows)[tableId], id)
      ensures r.Success? ==> rows == old(rows)[tableId := WithoutRow(old(rows)[tableId], id)]
      ensures r.Failure? ==> rows == old(rows)
      ensures bases == old(bases) && tables == old(tables) && nextId == old(nextId)
      ensures calls == old(calls) + [DeleteRowCall(tableId, id)]
    {
      calls := calls + [DeleteRowCall(tableId, id)];
      if tableId in rows && HasRow(rows[tableId], id) {
        var s := WithoutRow(rows[tableId], id);
        WithoutRowValid(rows[tableId], id);
        rows := rows[tableId := s];
        r := Success(());
      } else {
        r := Failure(NoRecordsError(tableId));
      }
    }

    /** `GET /api/v2/tables/{tableId}/records?limit=1`, read for `pageInfo.totalRows`. */
    method CountRows(tableId: string) returns (r: Result<nat>)
      modifies this
      ensures r.Success? <==> tableId in rows
      ensures r.Success? ==> r.value == |rows[tableId]|
      ensures bases == old(bases) && tables == old(tables) && rows == old(rows) && nextId == old(nextId)
      ensures calls == old(calls) + [CountRowsCall(tableId)]
    {
      calls := calls + [CountRowsCall(tableId)];
      if tableId in rows {
        r := Success(|rows[tableId]|);
      } else {
        r := Failure(NoRecordsError(tableId));
      }
    }

    /** `fetch(url)` of an attachment: a response that is not ok for a URL the server does not serve. */
    method Download(url: string) returns (r: Result<Blob>)
      modifies this
      ensures url in files ==> r == Success(files[url])
      ensures url !in files ==> r == Failure("Download attachment failed: 404 " + url)
      ensures bases == old(bases) && tables == old(tables) && rows == old(rows) && nextId == old(nextId)
      ensures calls == old(calls) + [DownloadCall(url)]
    {
      calls := calls + [DownloadCall(url)];
      if url in files {
        r := Success(files[url]);
      } else {
        r := Failure("Download attachment failed: 404 " + url);
      }
    }
  }

  /** Removing a row keeps ids distinct, removes exactly that id and keeps every other row. */
  lemma WithoutRowValid(s: seq<NocoRow>, id: nat)
    requires DistinctRowIds(s)
    ensures DistinctRowIds(WithoutRow(s, id))
    ensures forall r :: r in WithoutRow(s, id) <==> r in s && r.id != id
  {
    WithoutRowDistinct(s, id);
  }

  lemma {:induction false} WithoutRowDistinct(s: seq<NocoRow>, id: nat)
    requires DistinctRowIds(s)
    ensures DistinctRowIds(WithoutRow(s, id))
  {
    if s != [] {
      assert DistinctRowIds(s[1..]) by {
        forall i, j | 0 <= i < j < |s[1..]| ensures s[1..][i].id != s[1..][j].id {
          assert s[1..][i] == s[i + 1] && s[1..][j] == s[j + 1];
        }
      }
      WithoutRowDistinct(s[1..], id);
      var rest := WithoutRow(s[1..], id);
      assert WithoutRow(s, id) == (if s[0].id != id then [s[0]] else []) + rest;
      forall r | r in rest ensures r.id != s[0].id {
        assert r in s[1..];
        var k :| 0 <= k < |s[1..]| && s[1..][k] == r;
        assert s[k + 1] == r;
      }
    }
  }

  /** Deleting the last row of a table with distinct ids removes exactly that row. */
  lemma WithoutLastRow(s: seq<NocoRow>)
    requires s != [] && DistinctRowIds(s)
    ensures WithoutRow(s, s[|s| - 1].id) == s[..|s| - 1]
  {
    var last := s[|s| - 1];
    var init := s[..|s| - 1];
    assert s == init + [last];
    Seqs.FilterConcat(init, [last], (r: NocoRow) => r.id != last.id);
    forall i | 0 <= i < |init| ensures init[i].id != last.id {
      assert init[i] == s[i];
    }
    Seqs.FilterAll(init, (r: NocoRow) => r.id != last.id);
  }

  /** Deleting the first row of a table with distinct ids removes exactly that row. */
  lemma WithoutFirstRow(s: seq<NocoRow>)
    requires s != [] && DistinctRowIds(s)
    ensures WithoutRow(s, s[0].id) == s[1..]
  {
    var first := s[0];
    forall i | 0 <= i < |s[1..]| ensures s[1..][i].id != first.id {
      assert s[1..][i] == s[i + 1];
    }
    Seqs.FilterAll(s[1..], (r: NocoRow) => r.id != first.id);
  }

  // --------------------------------------------------------------- PocketBase

  /** The file sent in the `photo` form field. */
  datatype PbFile = PbFile(name: string, mime: string, bytes: seq<bv8>)

  datatype PbRecord = PbRecord(id: nat, data: Record, photo: Option<PbFile>)

  /** The two password-authentication endpoints: `_superusers` (newer servers) and `admins` (older ones). */
  datatype AuthEndpoint = SuperusersAuth | AdminsAuth

  datatype PbCall =
    | AuthCall(endpoint: AuthEndpoint, identity: string, password: string)
    | ListPageCall(collection: string, page: nat, perPage: nat)
    | DeleteCall(collection: string, id: nat)
    | CreateCall(collection: string, payload: Record)
    | UploadCall(collection: string, id: nat, file: PbFile)

  /** The records of a collection newest first (`sort=-created`); records are kept oldest first. */
  function Reversed<T>(s: seq<T>): seq<T> {
    seq(|s|, i requires 0 <= i < |s| => s[|s| - 1 - i])
  }

  /** Page `page` (from 1; PocketBase reads 0 as 1) of `perPage` items. */
  function Page<T>(s: seq<T>, page: nat, perPage: nat): seq<T> {
    Window(s, (if page == 0 then 0 else page - 1) * perPage, perPage)
  }

  predicate HasRecord(s: seq<PbRecord>, id: nat) {
    exists i :: 0 <= i < |s| && s[i].id == id
  }

  function WithoutRecord(s: seq<PbRecord>, id: nat): seq<PbRecord> {
    Seqs.Filter(s, (r: PbRecord) => r.id != id)
  }

  function WithPhoto(s: seq<PbRecord>, id: nat, file: PbFile): (r: seq<PbRecord>)
    ensures |r| == |s|
    ensures forall i :: 0 <= i < |s| ==> r[i] == if s[i].id == id then s[i].(photo := Some(file)) else s[i]
  {
    Seqs.MapSeq(s, (r: PbRecord) => if r.id == id then r.(photo := Some(file)) else r)
  }

  predicate DistinctRecordIds(s: seq<PbRecord>) {
    forall i, j :: 0 <= i < j < |s| ==> s[i].id != s[j].id
  }

  predicate IdsBelow(s: seq<PbRecord>, bound: nat) {
    forall i :: 0 <= i < |s| ==> s[i].id < bound
  }

  class PocketBase {
    /** The records of each collection, oldest first. */
    var collections: map<string, seq<PbRecord>>
    var nextId: nat
    /** The server's answer to a password login on each endpoint: a token, or the error it reports. */
    const authReply: (AuthEndpoint, string, string) -> Result<string>
    /** The collection rules and field validators: whether a create of this payload is accepted. */
    const accepts: (string, Record) -> bool
    /** The photo field's validators (MIME types, size): whether an upload is accepted. */
    const acceptsFile: PbFile -> bool
    /** Whether a create response carries the new record's `id`. */
    const revealsIds: bool
    var calls: seq<PbCall>

    /** Record ids are distinct within a collection and below `nextId`. */
    predicate Valid()
      reads this
    {
      forall c :: c in collections ==> DistinctRecordIds(collections[c]) && IdsBelow(collections[c], nextId)
    }

    constructor (collections: map<string, seq<PbRecord>>, nextId: nat,
                 authReply: (AuthEndpoint, string, string) -> Result<string>,
                 accepts: (string, Record) -> bool, acceptsFile: PbFile -> bool, revealsIds: bool)
      ensures this.collections == collections && this.nextId == nextId && calls == []
      ensures this.authReply == authReply && this.accepts == accepts
      ensures this.acceptsFile == acceptsFile && this.revealsIds == revealsIds
    {
      this.collections := collections;
      this.nextId := nextId;
      this.authReply := authReply;
      this.accepts := accepts;
      this.acceptsFile := acceptsFile;
      this.revealsIds := revealsIds;
      calls := [];
    }

    /** `POST {endpoint}` with `identity` and `password`. */
    method Auth(endpoint: AuthEndpoint, identity: string, password: string) returns (r: Result<string>)
      modifies this
      ensures r == authReply(endpoint, identity, password)
      ensures collections == old(collections) && nextId == old(nextId)
      ensures calls == old(calls) + [AuthCall(endpoint, identity, password)]
    {
      calls := calls + [AuthCall(endpoint, identity, password)];
      r := authReply(endpoint, identity, password);
    }

    /** `GET /api/collections/{c}/records?page=..&perPage=..&sort=-created`. */
    method ListPage(c: string, page: nat, perPage: nat) returns (r: Result<seq<PbRecord>>)
      modifies this
      ensures r.Success? <==> c in collections
      ensures r.Success? ==> r.value == Page(Reversed(collections[c]), page, perPage)
      ensures collections == old(collections) && nextId == old(nextId)
      ensures calls == old(calls) + [ListPageCall(c, page, perPage)]
    {
      calls := calls + [ListPageCall(c, page, perPage)];
      if c in collections {
        r := Success(Page(Reversed(collections[c]), page, perPage));
      } else {
        r := Failure("HTTP 404 /api/collections/" + c + "/records");
      }
    }

    /** `DELETE /api/collections/{c}/records/{id}`: fails for an unknown collection or id. */
    method Delete(c: string, id: nat) returns (r: Result<()>)
      requires Valid()
      modifies this
      ensures Valid()
      ensures r.Success? <==> c in old(collections) && HasRecord(old(collections)[c], id)
      ensures r.Success? ==> collections == old(collections)[c := WithoutRecord(old(collections)[c], id)]
      ensures r.Failure? ==> collections == old(collections)
      ensures nextId == old(nextId)
      ensures calls == old(calls) + [DeleteCall(c, id)]
    {
      calls := calls + [DeleteCall(c, id)];
      if c in collections && HasRecord(collections[c], id) {
        WithoutRecordValid(collections[c], id, nextId);
        collections := collections[c := WithoutRecord(collections[c], id)];
        r := Success(());
      } else {
        r := Failure("HTTP 404 /api/collections/" + c + "/records/" + Decimal.NatToString(id));
      }
    }

    /** `POST /api/collections/{c}/records`: appends a record with a fresh id. */
    method Create(c: string, payload: Record) returns (r: Result<Option<nat>>)
      requires Valid()
      modifies this
      ensures Valid()
      ensures r.Success? <==> c in old(collections) && accepts(c, payload)
      ensures r.Success? ==> (
        && collections == old(collections)[c := old(collections)[c] + [PbRecord(old(nextId), payload, None)]]
        && nextId == old(nextId) + 1
        && r.value == if revealsIds then Some(old(nextId)) else None)
      ensures r.Failure? ==> collections == old(collections) && nextId == old(nextId)
      ensures calls == old(calls) + [CreateCall(c, payload)]
    {
      calls := calls + [CreateCall(c, payload)];
      if c in collections && accepts(c, payload) {
        var s := collections[c] + [PbRecord(nextId, payload, None)];
        collections := collections[c := s];
        r := Success(if revealsIds then Some(nextId) else None);
        nextId := nextId + 1;
        forall c' | c' in collections ensures DistinctRecordIds(collections[c']) && IdsBelow(collections[c'], nextId) {
        }
      } else {
        r := Failure("HTTP 400 /api/collections/" + c + "/records");
      }
    }

    /** `PATCH /api/collections/{c}/records/{id}` with the `photo` form field. */
    method Upload(c: string, id: nat, file: PbFile) returns (r: Result<()>)
      requires Valid()
      modifies this
      ensures Valid()
      ensures r.Success? <==> c in old(collections) && HasRecord(old(collections)[c], id) && acceptsFile(file)
      ensures r.Success? ==> collections == old(collections)[c := WithPhoto(old(collections)[c], id, file)]
      ensures r.Failure? ==> collections == old(collections)
      ensures nextId == old(nextId)
      ensures calls == old(calls) + [UploadCall(c, id, file)]
    {
      calls := calls + [UploadCall(c, id, file)];
      if c in collections && HasRecord(collections[c], id) && acceptsFile(file) {
        collections := collections[c := WithPhoto(collections[c], id, file)];
        r := Success(());
      } else {
        r := Failure("HTTP 400 /api/collections/" + c + "/records/" + Decimal.NatToString(id));
      }
    }
  }

  /** Removing a record keeps ids distinct and below the bound. */
  lemma WithoutRecordValid(s: seq<PbRecord>, id: nat, bound: nat)
    requires DistinctRecordIds(s) && IdsBelow(s, bound)
    ensures DistinctRecordIds(WithoutRecord(s, id)) && IdsBelow(WithoutRecord(s, id), bound)
  {
    WithoutRecordDistinct(s, id, bound);
  }

  lemma {:induction false} WithoutRecordDistinct(s: seq<PbRecord>, id: nat, bound: nat)
    requires DistinctRecordIds(s) && IdsBelow(s, bound)
    ensures DistinctRecordIds(WithoutRecord(s, id)) && IdsBelow(WithoutRecord(s, id), bound)
  {
    if s != [] {
      var tail := s[1..];
      assert DistinctRecordIds(tail) && IdsBelow(tail, bound) by {
        forall i | 0 <= i < |tail| ensures tail[i] == s[i + 1] { }
      }
      WithoutRecordDistinct(tail, id, bound);
      var rest := WithoutRecord(tail, id);
      forall r | r in rest ensures r.id != s[0].id {
        var k :| 0 <= k < |tail| && tail[k] == r;
        assert s[k + 1] == r;
      }
      if s[0].id != id {
        assert WithoutRecord(s, id) == [s[0]] + rest;
        ConsDistinct(s[0], rest, bound);
      } else {
        assert WithoutRecord(s, id) == rest;
      }
    }
  }

  /** A record in front of records with other ids, all below `bound`. */
  lemma ConsDistinct(x: PbRecord, rest: seq<PbRecord>, bound: nat)
    requires DistinctRecordIds(rest) && IdsBelow(rest, bound) && x.id < bound
    requires forall r :: r in rest ==> r.id != x.id
    ensures DistinctRecordIds([x] + rest) && IdsBelow([x] + rest, bound)
  {
    var t := [x] + rest;
    forall i, j | 0 <= i < j < |t| ensures t[i].id != t[j].id {
      assert t[j] == rest[j - 1];
      if i > 0 {
        assert t[i] == rest[i - 1];
      }
    }
  }

  /** Deleting the newest record of a collection with distinct ids removes exactly that record. */
  lemma WithoutLastRecord(s: seq<PbRecord>)
    requires s != [] && DistinctRecordIds(s)
    ensures WithoutRecord(s, s[|s| - 1].id) == s[..|s| - 1]
  {
    var last := s[|s| - 1];
    var init := s[..|s| - 1];
    assert s == init + [last];
    Seqs.FilterConcat(init, [last], (r: PbRecord) => r.id != last.id);
    forall i | 0 <= i < |init| ensures init[i].id != last.id {
      assert init[i] == s[i];
    }
    Seqs.FilterAll(init, (r: PbRecord) => r.id != last.id);
  }

  /** Attaching a photo to the newest record, whose id is above all others, changes only that record. */
  lemma WithPhotoLast(s: seq<PbRecord>, r: PbRecord, file: PbFile)
    requires IdsBelow(s, r.id)
    ensures WithPhoto(s + [r], r.id, file) == s + [r.(photo := Some(file))]
  {
  }
}
