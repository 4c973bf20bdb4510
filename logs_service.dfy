/**
 * The log-settings service (src/modules/servers/logs.service.ts) over an
 * abstract `logs` table: a map from row id to row. A call that the database
 * would fail is given a `fault`; whether it fails is not modelled further.
 */
module LogsService {
  import opened Wrappers
  import opened Persistence

  /** `LogUpsertInput`; an omitted optional property is `Undefined`. */
  datatype LogUpsertInput = LogUpsertInput(
    id: string, serverId: string,
    messages: JsValue, roles: JsValue, join: JsValue, leaves: JsValue, voice: JsValue)

  /** A row as the driver returns it; timestamps are opaque integers. */
  datatype LogRow = LogRow(
    id: string, serverId: string,
    messages: JsValue, roles: JsValue, join: JsValue, leaves: JsValue, voice: JsValue,
    createdAt: int)

  /** `LogRecord`: every optional field is a string or `null` (`None`). */
  datatype LogRecord = LogRecord(
    id: string, serverId: string,
    messages: Option<string>, roles: Option<string>, join: Option<string>, leaves: Option<string>, voice: Option<string>,
    createdAt: int)

  type LogTable = map<string, LogRow>

  /** `normalizeRow`: keeps the keys and the creation time; a missing optional value becomes `null`. */
  function NormalizeRow(row: LogRow): (r: LogRecord)
    ensures r.id == row.id && r.serverId == row.serverId && r.createdAt == row.createdAt
    ensures r.messages == OrNull(row.messages) && r.roles == OrNull(row.roles) && r.join == OrNull(row.join)
    ensures r.leaves == OrNull(row.leaves) && r.voice == OrNull(row.voice)
    ensures r.messages.None? <==> !row.messages.Defined?
  {
    LogRecord(row.id, row.serverId, OrNull(row.messages), OrNull(row.roles), OrNull(row.join),
              OrNull(row.leaves), OrNull(row.voice), row.createdAt)
  }

  /** The optional columns of a log row, each under its property name. */
  datatype LogField = Messages | Roles | Join | Leaves | Voice {
    function Name(): string {
      match this
      case Messages => "messages"
      case Roles => "roles"
      case Join => "join"
      case Leaves => "leaves"
      case Voice => "voice"
    }
  }

  const AllFields: set<LogField> := {Messages, Roles, Join, Leaves, Voice}

  /** The payload restricted to the fields in `fields`. */
  function PayloadOver(updates: Updates, fields: set<LogField>): map<LogField, Column> {
    map f | f in fields && f.Name() in updates :: CoalescedColumn(updates[f.Name()])
  }

  /** Reference definition of the partial update: the payload over every field, or `null` when it is empty. */
  function UpdatePayload(updates: Updates): Option<map<LogField, Column>> {
    var p := PayloadOver(updates, AllFields);
    if |p| > 0 then Some(p) else None
  }

  /** The payload has an entry exactly for each field present as an own key, holding its value `?? null`; it is `null` when there is none. */
  lemma UpdatePayloadShape(updates: Updates)
    ensures var p := UpdatePayload(updates);
      && (p.None? <==>
            "messages" !in updates && "roles" !in updates && "join" !in updates
            && "leaves" !in updates && "voice" !in updates)
      && (p.Some? ==> forall f: LogField :: f in p.value <==> f.Name() in updates)
      && (p.Some? ==> forall f :: f in p.value ==> NullCoalesced(updates[f.Name()], p.value[f]))
  {
    var p := PayloadOver(updates, AllFields);
    assert forall f: LogField :: f.Name() in updates ==> f in p;
  }

  /** One `if (Object.hasOwn(updates, f))` step extends the payload over `fields` to the payload over `extended`. */
  lemma AddField(updates: Updates, payload: map<LogField, Column>, fields: set<LogField>, f: LogField,
                 extended: set<LogField>, key: string)
    requires key == f.Name()
    requires payload == PayloadOver(updates, fields) && extended == fields + {f}
    ensures key in updates ==> payload[f := CoalescedColumn(updates[key])] == PayloadOver(updates, extended)
    ensures key !in updates ==> payload == PayloadOver(updates, extended)
  {
  }

  /** `buildUpdatePayload`: fills the payload field by field, then returns it only if it is not empty. */
  method BuildUpdatePayload(updates: Updates) returns (r: Option<map<LogField, Column>>)
    ensures r == UpdatePayload(updates)
  {
    var payload: map<LogField, Column> := map[];
    AddField(updates, payload, {}, Messages, {Messages}, "messages");
    if "messages" in updates {
      payload := payload[Messages := CoalescedColumn(updates["messages"])];
    }
    assert payload == PayloadOver(updates, {Messages});
    AddField(updates, payload, {Messages}, Roles, {Messages, Roles}, "roles");
    if "roles" in updates {
      payload := payload[Roles := CoalescedColumn(updates["roles"])];
    }
    assert payload == PayloadOver(updates, {Messages, Roles});
    AddField(updates, payload, {Messages, Roles}, Join, {Messages, Roles, Join}, "join");
    if "join" in updates {
      payload := payload[Join := CoalescedColumn(updates["join"])];
    }
    assert payload == PayloadOver(updates, {Messages, Roles, Join});
    AddField(updates, payload, {Messages, Roles, Join}, Leaves, {Messages, Roles, Join, Leaves}, "leaves");
    if "leaves" in updates {
      payload := payload[Leaves := CoalescedColumn(updates["leaves"])];
    }
    assert payload == PayloadOver(updates, {Messages, Roles, Join, Leaves});
    AddField(updates, payload, {Messages, Roles, Join, Leaves}, Voice, AllFields, "voice");
    if "voice" in updates {
      payload := payload[Voice := CoalescedColumn(updates["voice"])];
    }
    r := if |payload| > 0 then Some(payload) else None;
  }

  /** The values `saveLog` writes, for the insert and for the conflict update alike. */
  function SaveValues(input: LogUpsertInput): (v: map<LogField, Column>)
    ensures v.Keys == AllFields
    ensures NullCoalesced(input.messages, v[Messages]) && NullCoalesced(input.roles, v[Roles])
    ensures NullCoalesced(input.join, v[Join]) && NullCoalesced(input.leaves, v[Leaves])
    ensures NullCoalesced(input.voice, v[Voice])
  {
    map[Messages := CoalescedColumn(input.messages), Roles := CoalescedColumn(input.roles),
        Join := CoalescedColumn(input.join), Leaves := CoalescedColumn(input.leaves),
        Voice := CoalescedColumn(input.voice)]
  }

  /** A row with the payload's columns written and every other column kept. */
  function ApplyPayload(row: LogRow, p: map<LogField, Column>): LogRow {
    LogRow(row.id, row.serverId,
           if Messages in p then StoredText(p[Messages], row.messages) else row.messages,
           if Roles in p then StoredText(p[Roles], row.roles) else row.roles,
           if Join in p then StoredText(p[Join], row.join) else row.join,
           if Leaves in p then StoredText(p[Leaves], row.leaves) else row.leaves,
           if Voice in p then StoredText(p[Voice], row.voice) else row.voice,
           row.createdAt)
  }

  /**
   * `saveLog(input)`: an upsert keyed by id into a table whose `serverId`
   * must name a row of `servers`. A new row is created at `now`; an existing
   * row keeps its creation time. The saved row, normalised, is returned.
   */
  function SaveLog(t: LogTable, servers: set<string>, input: LogUpsertInput, now: int, fault: Option<string>)
    : (r: (LogTable, Result<LogRecord, DbError>))
    ensures fault.Some? ==> r == (t, Err(Fault(fault.value)))
    ensures fault.None? && input.serverId !in servers ==> r == (t, Err(ForeignKeyViolation("server_id")))
    ensures fault.None? && input.serverId in servers ==>
              && r.0.Keys == t.Keys + {input.id}
              && r.1.Ok? && r.1.value == NormalizeRow(r.0[input.id])
              && forall k :: k in t && k != input.id ==> r.0[k] == t[k]
  {
    if fault.Some? then (t, Err(Fault(fault.value)))
    else if input.serverId !in servers then (t, Err(ForeignKeyViolation("server_id")))
    else
      var createdAt := if input.id in t then t[input.id].createdAt else now;
      var row := ApplyPayload(LogRow(input.id, input.serverId, Null, Null, Null, Null, Null, createdAt),
                              SaveValues(input));
      (t[input.id := row], Ok(NormalizeRow(row)))
  }

  /** `updateLog(id, updates)`: no payload means no write and `null`; a missing row also yields `null`. */
  function UpdateLog(t: LogTable, id: string, updates: Updates, fault: Option<string>)
    : (r: (LogTable, Result<Option<LogRecord>, DbError>))
    ensures UpdatePayload(updates).None? ==> r == (t, Ok(None))
    ensures UpdatePayload(updates).Some? && fault.Some? ==> r == (t, Err(Fault(fault.value)))
    ensures UpdatePayload(updates).Some? && fault.None? && id !in t ==> r == (t, Ok(None))
    ensures UpdatePayload(updates).Some? && fault.None? && id in t ==>
              && r.0.Keys == t.Keys && r.1 == Ok(Some(NormalizeRow(r.0[id])))
              && forall k :: k in t && k != id ==> r.0[k] == t[k]
  {
    match UpdatePayload(updates)
    case None => (t, Ok(None))
    case Some(p) =>
      if fault.Some? then (t, Err(Fault(fault.value)))
      else if id !in t then (t, Ok(None))
      else
        var row := ApplyPayload(t[id], p);
        (t[id := row], Ok(Some(NormalizeRow(row))))
  }

  /** `getLogById(id)`: a failure falls back to `null` instead of throwing. */
  function GetLogById(t: LogTable, id: string, fault: Option<string>): (r: Option<LogRecord>)
    ensures fault.Some? ==> r.None?
    ensures fault.None? ==> (r.Some? <==> id in t) && (r.Some? ==> r.value == NormalizeRow(t[id]))
  {
    if fault.Some? || id !in t then None else Some(NormalizeRow(t[id]))
  }

  /** `getLogsByServerId(serverId)` as a set (row order is not modelled); a failure falls back to no logs. */
  function GetLogsByServerId(t: LogTable, serverId: string, fault: Option<string>): (r: set<LogRecord>)
    ensures fault.Some? ==> r == {}
    ensures fault.None? ==> forall rec :: rec in r <==>
              exists k :: k in t && t[k].serverId == serverId && rec == NormalizeRow(t[k])
  {
    if fault.Some? then {} else set k | k in t && t[k].serverId == serverId :: NormalizeRow(t[k])
  }

  /** The `rowCount` of deleting `id`: the number of rows with that key. */
  function RemovedCount(t: LogTable, id: string): nat {
    if id in t then 1 else 0
  }

  /** `deleteLog(id)`: the row goes; the answer comes from the driver's `rowCount`. */
  function DeleteLog(t: LogTable, id: string, fault: Option<string>): (r: (LogTable, Result<bool, DbError>))
    ensures fault.Some? ==> r == (t, Err(Fault(fault.value)))
    ensures fault.None? ==> r.0.Keys == t.Keys - {id} && (forall k :: k in r.0 ==> r.0[k] == t[k]) && r.1 == Ok(true)
  {
    if fault.Some? then (t, Err(Fault(fault.value)))
    else (t - {id}, Ok(DeletedFlag(Some(RemovedCount(t, id)))))
  }

  /** Without a payload `updateLog` issues no query, so a query failure cannot reach it and the table stays. */
  lemma UpdateWithoutPayload(t: LogTable, id: string, updates: Updates, fault: Option<string>)
    requires "messages" !in updates && "roles" !in updates && "join" !in updates
    requires "leaves" !in updates && "voice" !in updates
    ensures UpdateLog(t, id, updates, fault) == (t, Ok(None))
  {
    UpdatePayloadShape(updates);
  }

  /**
   * An update of an existing row writes exactly the present fields, each as
   * its value `?? null`, and keeps the absent columns, the keys, the creation
   * time and every other row.
   */
  lemma UpdateWritesPresentFields(t: LogTable, id: string, updates: Updates)
    requires id in t && UpdatePayload(updates).Some?
    ensures var (t', r) := UpdateLog(t, id, updates, None);
      && t'.Keys == t.Keys
      && r.Ok? && r.value.Some? && r.value.value == NormalizeRow(t'[id])
      && var rec := r.value.value;
      && rec.id == t[id].id && rec.serverId == t[id].serverId && rec.createdAt == t[id].createdAt
      && ("messages" in updates ==> rec.messages == OrNull(updates["messages"]))
      && ("messages" !in updates ==> rec.messages == OrNull(t[id].messages))
      && ("roles" in updates ==> rec.roles == OrNull(updates["roles"]))
      && ("roles" !in updates ==> rec.roles == OrNull(t[id].roles))
      && ("join" in updates ==> rec.join == OrNull(updates["join"]))
      && ("join" !in updates ==> rec.join == OrNull(t[id].join))
      && ("leaves" in updates ==> rec.leaves == OrNull(updates["leaves"]))
      && ("leaves" !in updates ==> rec.leaves == OrNull(t[id].leaves))
      && ("voice" in updates ==> rec.voice == OrNull(updates["voice"]))
      && ("voice" !in updates ==> rec.voice == OrNull(t[id].voice))
      && forall k :: k in t && k != id ==> t'[k] == t[k]
  {
    UpdatePayloadShape(updates);
    var p := UpdatePayload(updates).value;
    if "messages" in updates { assert Messages in p && NullCoalesced(updates["messages"], p[Messages]); }
    else { assert Messages !in p; }
    if "roles" in updates { assert Roles in p && NullCoalesced(updates["roles"], p[Roles]); }
    else { assert Roles !in p; }
    if "join" in updates { assert Join in p && NullCoalesced(updates["join"], p[Join]); }
    else { assert Join !in p; }
    if "leaves" in updates { assert Leaves in p && NullCoalesced(updates["leaves"], p[Leaves]); }
    else { assert Leaves !in p; }
    if "voice" in updates { assert Voice in p && NullCoalesced(updates["voice"], p[Voice]); }
    else { assert Voice !in p; }
  }

  /** The record `saveLog` returns is what a later `getLogById` reads, with every absent optional field `null`. */
  lemma SaveThenGet(t: LogTable, servers: set<string>, input: LogUpsertInput, now: int)
    requires input.serverId in servers
    ensures var (t', saved) := SaveLog(t, servers, input, now, None);
      && saved.Ok?
      && GetLogById(t', input.id, None) == Some(saved.value)
      && saved.value.id == input.id && saved.value.serverId == input.serverId
      && saved.value.messages == OrNull(input.messages) && saved.value.roles == OrNull(input.roles)
      && saved.value.join == OrNull(input.join) && saved.value.leaves == OrNull(input.leaves)
      && saved.value.voice == OrNull(input.voice)
      && saved.value.createdAt == (if input.id in t then t[input.id].createdAt else now)
  {
    var v := SaveValues(input);
    assert NullCoalesced(input.messages, v[Messages]) && NullCoalesced(input.roles, v[Roles]);
    assert NullCoalesced(input.join, v[Join]) && NullCoalesced(input.leaves, v[Leaves]);
    assert NullCoalesced(input.voice, v[Voice]);
  }

  /** `deleteLog` answers `true` whenever the database does not fail, even for an id with no row. */
  lemma DeleteAlwaysTrue(t: LogTable, id: string)
    ensures DeleteLog(t, id, None) == (t - {id}, Ok(true))
    ensures id !in DeleteLog(t, id, None).0
  {
  }

  /** With the count read as intended, a delete reports `true` exactly when the row existed. */
  lemma DeleteReportsRemoval(t: LogTable, id: string)
    ensures RowsDeleted(Some(RemovedCount(t, id))) <==> id in t
  {
  }
}
