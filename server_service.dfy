/**
 * The server service (src/modules/servers/server.service.ts) over an
 * abstract `servers` table, and the `logs` rows that reference it. A call
 * that the database would fail is given a `fault`.
 */
module ServerService {
  import opened Wrappers
  import opened Persistence
  import LogsService

  /** `ServerUpsertInput`; an omitted optional property is `Undefined`. */
  datatype ServerUpsertInput = ServerUpsertInput(
    id: string, name: string, iconURL: JsValue, bannerURL: JsValue, locale: JsValue)

  /** A row as the driver returns it; `name` is a NOT NULL column. */
  datatype ServerRow = ServerRow(
    id: string, name: string, iconURL: JsValue, bannerURL: JsValue, locale: JsValue, createdAt: int)

  /** `ServerRecord`: every optional field is a string or `null` (`None`). */
  datatype ServerRecord = ServerRecord(
    id: string, name: string, iconURL: Option<string>, bannerURL: Option<string>, locale: Option<string>,
    createdAt: int)

  type ServerTable = map<string, ServerRow>

  /** `normalizeRow`: keeps the key, the name and the creation time; a missing optional value becomes `null`. */
  function NormalizeRow(row: ServerRow): (r: ServerRecord)
    ensures r.id == row.id && r.name == row.name && r.createdAt == row.createdAt
    ensures r.iconURL == OrNull(row.iconURL) && r.bannerURL == OrNull(row.bannerURL)
    ensures r.locale == OrNull(row.locale)
  {
    ServerRecord(row.id, row.name, OrNull(row.iconURL), OrNull(row.bannerURL), OrNull(row.locale), row.createdAt)
  }

  /** The updatable columns of a server row, each under its property name. */
  datatype ServerField = Name | IconUrl | BannerUrl | Locale {
    function Key(): string {
      match this
      case Name => "name"
      case IconUrl => "iconURL"
      case BannerUrl => "bannerURL"
      case Locale => "locale"
    }
  }

  const AllFields: set<ServerField> := {Name, IconUrl, BannerUrl, Locale}

  /** Whether `buildUpdatePayload` takes field `f`: `name` when it is not `undefined`, the others when they are own keys. */
  predicate Takes(updates: Updates, f: ServerField) {
    f.Key() in updates && (f == Name ==> updates[f.Key()] != Undefined)
  }

  /** The payload restricted to the fields in `fields`; a taken `name` is copied, `null` included. */
  function PayloadOver(updates: Updates, fields: set<ServerField>): map<ServerField, Column> {
    map f | f in fields && Takes(updates, f) :: CoalescedColumn(updates[f.Key()])
  }

  /** Reference definition of the partial update: the payload over every field, or `null` when it is empty. */
  function UpdatePayload(updates: Updates): Option<map<ServerField, Column>> {
    var p := PayloadOver(updates, AllFields);
    if |p| > 0 then Some(p) else None
  }

  /**
   * The payload has an entry exactly for each field taken; `name` carries its
   * value as given, so a `null` name reaches the database; the payload is
   * `null` when no field is taken.
   */
  lemma UpdatePayloadShape(updates: Updates)
    ensures var p := UpdatePayload(updates);
      && (p.None? <==>
            ("name" !in updates || updates["name"] == Undefined)
            && "iconURL" !in updates && "bannerURL" !in updates && "locale" !in updates)
      && (p.Some? ==> forall f: ServerField :: f in p.value <==> Takes(updates, f))
      && (p.Some? ==> forall f :: f in p.value ==> NullCoalesced(updates[f.Key()], p.value[f]))
      && (p.Some? && Name in p.value && updates["name"] == Null ==> p.value[Name] == NullValue)
  {
    var p := PayloadOver(updates, AllFields);
    assert forall f: ServerField :: Takes(updates, f) ==> f in p;
    assert Takes(updates, Name) <==> "name" in updates && updates["name"] != Undefined;
    assert Takes(updates, IconUrl) <==> "iconURL" in updates;
    assert Takes(updates, BannerUrl) <==> "bannerURL" in updates;
    assert Takes(updates, Locale) <==> "locale" in updates;
  }

  /** One step of `buildUpdatePayload` extends the payload over `fields` to the payload over `extended`. */
  lemma AddField(updates: Updates, payload: map<ServerField, Column>, fields: set<ServerField>, f: ServerField,
                 extended: set<ServerField>, key: string)
    requires key == f.Key()
    requires payload == PayloadOver(updates, fields) && extended == fields + {f}
    ensures Takes(updates, f) ==> payload[f := CoalescedColumn(updates[key])] == PayloadOver(updates, extended)
    ensures !(Takes(updates, f)) ==> payload == PayloadOver(updates, extended)
  {
  }

  /** `buildUpdatePayload`: fills the payload field by field, then returns it only if it is not empty. */
  method BuildUpdatePayload(updates: Updates) returns (r: Option<map<ServerField, Column>>)
    ensures r == UpdatePayload(updates)
  {
    var payload: map<ServerField, Column> := map[];
    AddField(updates, payload, {}, Name, {Name}, "name");
    if "name" in updates && updates["name"] != Undefined {
      payload := payload[Name := CoalescedColumn(updates["name"])];
    }
    assert payload == PayloadOver(updates, {Name});
    AddField(updates, payload, {Name}, IconUrl, {Name, IconUrl}, "iconURL");
    if "iconURL" in updates {
      payload := payload[IconUrl := CoalescedColumn(updates["iconURL"])];
    }
    assert payload == PayloadOver(updates, {Name, IconUrl});
    AddField(updates, payload, {Name, IconUrl}, BannerUrl, {Name, IconUrl, BannerUrl}, "bannerURL");
    if "bannerURL" in updates {
      payload := payload[BannerUrl := CoalescedColumn(updates["bannerURL"])];
    }
    assert payload == PayloadOver(updates, {Name, IconUrl, BannerUrl});
    AddField(updates, payload, {Name, IconUrl, BannerUrl}, Locale, AllFields, "locale");
    if "locale" in updates {
      payload := payload[Locale := CoalescedColumn(updates["locale"])];
    }
    r := if |payload| > 0 then Some(payload) else None;
  }

  /** The values `saveServer` writes, for the insert and for the conflict update alike. */
  function SaveValues(input: ServerUpsertInput): (v: map<ServerField, Column>)
    ensures v.Keys == AllFields
    ensures v[Name] == Text(input.name)
    ensures NullCoalesced(input.iconURL, v[IconUrl]) && NullCoalesced(input.bannerURL, v[BannerUrl])
    ensures NullCoalesced(input.locale, v[Locale])
  {
    map[Name := Text(input.name), IconUrl := CoalescedColumn(input.iconURL),
        BannerUrl := CoalescedColumn(input.bannerURL), Locale := CoalescedColumn(input.locale)]
  }

  /** A payload that writes `null` into the NOT NULL `name` column. */
  predicate NullsName(p: map<ServerField, Column>) {
    Name in p && !p[Name].Text?
  }

  /** A row with the payload's columns written and every other column kept. */
  function ApplyPayload(row: ServerRow, p: map<ServerField, Column>): ServerRow {
    ServerRow(row.id,
              if Name in p && p[Name].Text? then p[Name].s else row.name,
              if IconUrl in p then StoredText(p[IconUrl], row.iconURL) else row.iconURL,
              if BannerUrl in p then StoredText(p[BannerUrl], row.bannerURL) else row.bannerURL,
              if Locale in p then StoredText(p[Locale], row.locale) else row.locale,
              row.createdAt)
  }

  /**
   * `saveServer(input)`: an upsert keyed by id. A new row is created at `now`;
   * an existing row keeps its creation time. The saved row, normalised, is returned.
   */
  function SaveServer(t: ServerTable, input: ServerUpsertInput, now: int, fault: Option<string>)
    : (r: (ServerTable, Result<ServerRecord, DbError>))
    ensures fault.Some? ==> r == (t, Err(Fault(fault.value)))
    ensures fault.None? ==>
              && r.0.Keys == t.Keys + {input.id}
              && r.1.Ok? && r.1.value == NormalizeRow(r.0[input.id])
              && forall k :: k in t && k != input.id ==> r.0[k] == t[k]
  {
    if fault.Some? then (t, Err(Fault(fault.value)))
    else
      var createdAt := if input.id in t then t[input.id].createdAt else now;
      var row := ApplyPayload(ServerRow(input.id, input.name, Null, Null, Null, createdAt), SaveValues(input));
      (t[input.id := row], Ok(NormalizeRow(row)))
  }

  /**
   * `updateServer(id, updates)`: no payload means no write and `null`; a
   * missing row also yields `null`; a `null` name violates the column's
   * NOT NULL constraint and the update fails.
   */
  function UpdateServer(t: ServerTable, id: string, updates: Updates, fault: Option<string>)
    : (r: (ServerTable, Result<Option<ServerRecord>, DbError>))
    ensures UpdatePayload(updates).None? ==> r == (t, Ok(None))
    ensures UpdatePayload(updates).Some? && fault.Some? ==> r == (t, Err(Fault(fault.value)))
    ensures UpdatePayload(updates).Some? && fault.None? && id !in t ==> r == (t, Ok(None))
    ensures UpdatePayload(updates).Some? && fault.None? && id in t ==>
              && (r.1.Err? ==> r == (t, Err(NotNullViolation("name"))))
              && (r.1.Ok? ==> && r.0.Keys == t.Keys && r.1 == Ok(Some(NormalizeRow(r.0[id])))
                              && forall k :: k in t && k != id ==> r.0[k] == t[k])
  {
    match UpdatePayload(updates)
    case None => (t, Ok(None))
    case Some(p) =>
      if fault.Some? then (t, Err(Fault(fault.value)))
      else if id !in t then (t, Ok(None))
      else if NullsName(p) then (t, Err(NotNullViolation("name")))
      else
        var row := ApplyPayload(t[id], p);
        (t[id := row], Ok(Some(NormalizeRow(row))))
  }

  /** `getServerById(id)`: a failure falls back to `null` instead of throwing. */
  function GetServerById(t: ServerTable, id: string, fault: Option<string>): (r: Option<ServerRecord>)
    ensures fault.Some? ==> r.None?
    ensures fault.None? ==> (r.Some? <==> id in t) && (r.Some? ==> r.value == NormalizeRow(t[id]))
  {
    if fault.Some? || id !in t then None else Some(NormalizeRow(t[id]))
  }

  /** The `rowCount` of deleting `id`: the number of rows with that key. */
  function RemovedCount(t: ServerTable, id: string): nat {
    if id in t then 1 else 0
  }

  /** The log rows left once server `id` is gone: the foreign key deletes its logs in cascade. */
  function CascadeLogs(logs: LogsService.LogTable, id: string): (r: LogsService.LogTable)
    ensures forall k :: k in r <==> k in logs && logs[k].serverId != id
    ensures forall k :: k in r ==> r[k] == logs[k]
  {
    map k | k in logs && logs[k].serverId != id :: logs[k]
  }

  /** `deleteServer(id)`: the row and, in cascade, its logs go; the answer comes from the driver's `rowCount`. */
  function DeleteServer(t: ServerTable, logs: LogsService.LogTable, id: string, fault: Option<string>)
    : (r: (ServerTable, LogsService.LogTable, Result<bool, DbError>))
    ensures fault.Some? ==> r == (t, logs, Err(Fault(fault.value)))
    ensures fault.None? ==> && r.0.Keys == t.Keys - {id} && (forall k :: k in r.0 ==> r.0[k] == t[k])
                            && r.1 == CascadeLogs(logs, id) && r.2 == Ok(true)
  {
    if fault.Some? then (t, logs, Err(Fault(fault.value)))
    else (t - {id}, CascadeLogs(logs, id), Ok(DeletedFlag(Some(RemovedCount(t, id)))))
  }

  /** Without a payload `updateServer` issues no query, so a query failure cannot reach it and the table stays. */
  lemma UpdateWithoutPayload(t: ServerTable, id: string, updates: Updates, fault: Option<string>)
    requires "name" !in updates || updates["name"] == Undefined
    requires "iconURL" !in updates && "bannerURL" !in updates && "locale" !in updates
    ensures UpdateServer(t, id, updates, fault) == (t, Ok(None))
  {
    UpdatePayloadShape(updates);
  }

  /** An explicit `null` name is passed through by the payload and then refused by the database. */
  lemma NullNameRejected(t: ServerTable, id: string, updates: Updates)
    requires id in t && "name" in updates && updates["name"] == Null
    ensures UpdateServer(t, id, updates, None) == (t, Err(NotNullViolation("name")))
  {
    UpdatePayloadShape(updates);
  }

  /** An update with a name writes it and keeps the other columns it does not mention. */
  lemma UpdateWritesName(t: ServerTable, id: string, updates: Updates, name: string)
    requires id in t && "name" in updates && updates["name"] == Defined(name)
    requires "iconURL" !in updates && "bannerURL" !in updates && "locale" !in updates
    ensures var r := UpdateServer(t, id, updates, None);
      && r.1 == Ok(Some(ServerRecord(t[id].id, name, OrNull(t[id].iconURL), OrNull(t[id].bannerURL),
                                     OrNull(t[id].locale), t[id].createdAt)))
      && r.0 == t[id := t[id].(name := name)]
  {
    UpdatePayloadShape(updates);
    var p := UpdatePayload(updates).value;
    assert p.Keys == {Name} by {
      forall f: ServerField ensures f in p <==> f == Name { assert f in p <==> Takes(updates, f); }
    }
    assert p[Name] == Text(name);
    var row := ApplyPayload(t[id], p);
    assert row == t[id].(name := name);
    assert !NullsName(p);
    assert UpdateServer(t, id, updates, None) == (t[id := row], Ok(Some(NormalizeRow(row))));
  }

  /**
   * An update of an existing row with a payload either fails on a `null` name
   * and changes nothing, or writes exactly the present fields, each as its
   * value `?? null` (a name only when it is a string), and keeps the absent
   * columns, the creation time and every other row.
   */
  lemma UpdateWritesPresentFields(t: ServerTable, id: string, updates: Updates)
    requires id in t && UpdatePayload(updates).Some?
    ensures var (t', r) := UpdateServer(t, id, updates, None);
      var nulled := "name" in updates && updates["name"] == Null;
      && (nulled ==> t' == t && r == Err(NotNullViolation("name")))
      && (!nulled ==>
            && t'.Keys == t.Keys
            && r.Ok? && r.value.Some? && r.value.value == NormalizeRow(t'[id])
            && var rec := r.value.value;
            && rec.id == t[id].id && rec.createdAt == t[id].createdAt
            && ("name" in updates && updates["name"].Defined? ==> rec.name == updates["name"].s)
            && ("name" !in updates || updates["name"] == Undefined ==> rec.name == t[id].name)
            && ("iconURL" in updates ==> rec.iconURL == OrNull(updates["iconURL"]))
            && ("iconURL" !in updates ==> rec.iconURL == OrNull(t[id].iconURL))
            && ("bannerURL" in updates ==> rec.bannerURL == OrNull(updates["bannerURL"]))
            && ("bannerURL" !in updates ==> rec.bannerURL == OrNull(t[id].bannerURL))
            && ("locale" in updates ==> rec.locale == OrNull(updates["locale"]))
            && ("locale" !in updates ==> rec.locale == OrNull(t[id].locale))
            && forall k :: k in t && k != id ==> t'[k] == t[k])
  {
    UpdatePayloadShape(updates);
    var p := UpdatePayload(updates).value;
    if "name" in updates && updates["name"] != Undefined { assert Name in p && NullCoalesced(updates["name"], p[Name]); }
    else { assert Name !in p; }
    if "iconURL" in updates { assert IconUrl in p && NullCoalesced(updates["iconURL"], p[IconUrl]); }
    else { assert IconUrl !in p; }
    if "bannerURL" in updates { assert BannerUrl in p && NullCoalesced(updates["bannerURL"], p[BannerUrl]); }
    else { assert BannerUrl !in p; }
    if "locale" in updates { assert Locale in p && NullCoalesced(updates["locale"], p[Locale]); }
    else { assert Locale !in p; }
  }

  /** The record `saveServer` returns is what a later `getServerById` reads, with every absent optional field `null`. */
  lemma SaveThenGet(t: ServerTable, input: ServerUpsertInput, now: int)
    ensures var (t', saved) := SaveServer(t, input, now, None);
      && saved.Ok?
      && GetServerById(t', input.id, None) == Some(saved.value)
      && saved.value == ServerRecord(input.id, input.name, OrNull(input.iconURL), OrNull(input.bannerURL),
                                     OrNull(input.locale), if input.id in t then t[input.id].createdAt else now)
  {
    var v := SaveValues(input);
    assert NullCoalesced(input.iconURL, v[IconUrl]) && NullCoalesced(input.bannerURL, v[BannerUrl]);
    assert NullCoalesced(input.locale, v[Locale]);
  }

  /** Deleting a server answers `true`, removes it, and leaves no log that references it; other logs stay. */
  lemma DeleteCascades(t: ServerTable, logs: LogsService.LogTable, id: string)
    ensures var (t', logs', r) := DeleteServer(t, logs, id, None);
      && r == Ok(true)
      && t' == t - {id}
      && (forall k :: k in logs' ==> logs'[k].serverId != id)
      && (forall k :: k in logs && logs[k].serverId != id ==> k in logs' && logs'[k] == logs[k])
  {
  }

  /** With the count read as intended, a delete reports `true` exactly when the row existed. */
  lemma DeleteReportsRemoval(t: ServerTable, id: string)
    ensures RowsDeleted(Some(RemovedCount(t, id))) <==> id in t
  {
  }
}
