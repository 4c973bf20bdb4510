/**
 * The user service (src/modules/users/user.service.ts) over an abstract
 * `users` table. Every write stamps `updatedAt` with the instant `now` the
 * caller reads from the clock. A call that the database would fail is given
 * a `fault`.
 */
module UserService {
  import opened Wrappers
  import opened Persistence

  /** `UserUpsertInput`; an omitted optional property is `Undefined`. */
  datatype UserUpsertInput = UserUpsertInput(
    id: string, username: string, displayName: JsValue, avatar: JsValue, locale: JsValue)

  /** A row as the driver returns it; `username` is a NOT NULL column; timestamps are opaque integers. */
  datatype UserRow = UserRow(
    id: string, username: string, displayName: JsValue, avatar: JsValue, locale: JsValue,
    createdAt: int, updatedAt: int)

  /** `UserRecord`: every optional field is a string or `null` (`None`). */
  datatype UserRecord = UserRecord(
    id: string, username: string, displayName: Option<string>, avatar: Option<string>, locale: Option<string>,
    createdAt: int, updatedAt: int)

  type UserTable = map<string, UserRow>

  /** `normalizeRow`: keeps the key, the username and both timestamps; a missing optional value becomes `null`. */
  function NormalizeRow(row: UserRow): (r: UserRecord)
    ensures r.id == row.id && r.username == row.username
    ensures r.createdAt == row.createdAt && r.updatedAt == row.updatedAt
    ensures r.displayName == OrNull(row.displayName) && r.avatar == OrNull(row.avatar)
    ensures r.locale == OrNull(row.locale)
  {
    UserRecord(row.id, row.username, OrNull(row.displayName), OrNull(row.avatar), OrNull(row.locale),
               row.createdAt, row.updatedAt)
  }

  /** The columns an update payload may hold, each under its property name. */
  datatype UserField = UpdatedAt | Username | DisplayName | Avatar | Locale {
    function Key(): string {
      match this
      case UpdatedAt => "updatedAt"
      case Username => "username"
      case DisplayName => "displayName"
      case Avatar => "avatar"
      case Locale => "locale"
    }
  }

  /** The fields taken from `updates`; `updatedAt` is not one of them. */
  const InputFields: set<UserField> := {Username, DisplayName, Avatar, Locale}

  /** Whether `buildUpdatePayload` takes field `f`: `username` when it is not `undefined`, the others when they are own keys. */
  predicate Takes(updates: Updates, f: UserField) {
    f != UpdatedAt && f.Key() in updates && (f == Username ==> updates[f.Key()] != Undefined)
  }

  /** The payload stamped with `now`, with the taken fields among `fields`. */
  function PayloadOver(updates: Updates, now: int, fields: set<UserField>): map<UserField, Column> {
    (map f | f in fields && Takes(updates, f) :: CoalescedColumn(updates[f.Key()]))[UpdatedAt := Timestamp(now)]
  }

  /** Reference definition of the partial update: the stamped payload, or `null` when it holds only the stamp. */
  function UpdatePayload(updates: Updates, now: int): Option<map<UserField, Column>> {
    var p := PayloadOver(updates, now, InputFields);
    if |p| > 1 then Some(p) else None
  }

  /**
   * The payload always carries `updatedAt := now`, and besides it exactly the
   * fields taken; `username` carries its value as given; the payload is
   * `null` when no field is taken.
   */
  lemma UpdatePayloadShape(updates: Updates, now: int)
    ensures var p := UpdatePayload(updates, now);
      && (p.None? <==>
            ("username" !in updates || updates["username"] == Undefined)
            && "displayName" !in updates && "avatar" !in updates && "locale" !in updates)
      && (p.Some? ==> UpdatedAt in p.value && p.value[UpdatedAt] == Timestamp(now))
      && (p.Some? ==> forall f: UserField :: f != UpdatedAt ==> (f in p.value <==> Takes(updates, f)))
      && (p.Some? ==> forall f :: f in p.value && f != UpdatedAt ==> NullCoalesced(updates[f.Key()], p.value[f]))
  {
    var taken := map f | f in InputFields && Takes(updates, f) :: CoalescedColumn(updates[f.Key()]);
    var p := PayloadOver(updates, now, InputFields);
    assert UpdatedAt !in taken && p == taken[UpdatedAt := Timestamp(now)];
    assert |p| == |taken| + 1;
    assert forall f: UserField :: Takes(updates, f) ==> f in taken;
    assert Takes(updates, Username) <==> "username" in updates && updates["username"] != Undefined;
    assert Takes(updates, DisplayName) <==> "displayName" in updates;
    assert Takes(updates, Avatar) <==> "avatar" in updates;
    assert Takes(updates, Locale) <==> "locale" in updates;
  }

  /** One step of `buildUpdatePayload` extends the payload over `fields` to the payload over `extended`. */
  lemma AddField(updates: Updates, now: int, payload: map<UserField, Column>, fields: set<UserField>, f: UserField,
                 extended: set<UserField>, key: string)
    requires f != UpdatedAt
    requires key == f.Key()
    requires payload == PayloadOver(updates, now, fields) && extended == fields + {f}
    ensures Takes(updates, f) ==> payload[f := CoalescedColumn(updates[key])] == PayloadOver(updates, now, extended)
    ensures !Takes(updates, f) ==> payload == PayloadOver(updates, now, extended)
  {
  }

  /** Before any field is taken the payload is the stamp alone. */
  lemma StampOnly(updates: Updates, now: int)
    ensures PayloadOver(updates, now, {}) == map[UpdatedAt := Timestamp(now)]
  {
  }

  /** `buildUpdatePayload(updates, now)`: starts from the stamp, adds field by field, and returns it only if something was added. */
  method BuildUpdatePayload(updates: Updates, now: int) returns (r: Option<map<UserField, Column>>)
    ensures r == UpdatePayload(updates, now)
  {
    var payload: map<UserField, Column> := map[UpdatedAt := Timestamp(now)];
    StampOnly(updates, now);
    AddField(updates, now, payload, {}, Username, {Username}, "username");
    if "username" in updates && updates["username"] != Undefined {
      payload := payload[Username := CoalescedColumn(updates["username"])];
    }
    assert payload == PayloadOver(updates, now, {Username});
    AddField(updates, now, payload, {Username}, DisplayName, {Username, DisplayName}, "displayName");
    if "displayName" in updates {
      payload := payload[DisplayName := CoalescedColumn(updates["displayName"])];
    }
    assert payload == PayloadOver(updates, now, {Username, DisplayName});
    AddField(updates, now, payload, {Username, DisplayName}, Avatar, {Username, DisplayName, Avatar}, "avatar");
    if "avatar" in updates {
      payload := payload[Avatar := CoalescedColumn(updates["avatar"])];
    }
    assert payload == PayloadOver(updates, now, {Username, DisplayName, Avatar});
    AddField(updates, now, payload, {Username, DisplayName, Avatar}, Locale, InputFields, "locale");
    if "locale" in updates {
      payload := payload[Locale := CoalescedColumn(updates["locale"])];
    }
    r := if |payload| > 1 then Some(payload) else None;
  }

  /** The values `saveUser` writes at `now`, for the insert and for the conflict update alike. */
  function SaveValues(input: UserUpsertInput, now: int): (v: map<UserField, Column>)
    ensures v.Keys == InputFields + {UpdatedAt}
    ensures v[Username] == Text(input.username) && v[UpdatedAt] == Timestamp(now)
    ensures NullCoalesced(input.displayName, v[DisplayName]) && NullCoalesced(input.avatar, v[Avatar])
    ensures NullCoalesced(input.locale, v[Locale])
  {
    map[Username := Text(input.username), DisplayName := CoalescedColumn(input.displayName),
        Avatar := CoalescedColumn(input.avatar), Locale := CoalescedColumn(input.locale),
        UpdatedAt := Timestamp(now)]
  }

  /** A payload that writes `null` into the NOT NULL `username` column. */
  predicate NullsUsername(p: map<UserField, Column>) {
    Username in p && !p[Username].Text?
  }

  /** A row with the payload's columns written and every other column kept. */
  function ApplyPayload(row: UserRow, p: map<UserField, Column>): UserRow {
    UserRow(row.id,
            if Username in p && p[Username].Text? then p[Username].s else row.username,
            if DisplayName in p then StoredText(p[DisplayName], row.displayName) else row.displayName,
            if Avatar in p then StoredText(p[Avatar], row.avatar) else row.avatar,
            if Locale in p then StoredText(p[Locale], row.locale) else row.locale,
            row.createdAt,
            if UpdatedAt in p && p[UpdatedAt].Timestamp? then p[UpdatedAt].t else row.updatedAt)
  }

  /**
   * `saveUser(input)` at `now`: an upsert keyed by id. A new row is created
   * at `now`; an existing row keeps its creation time; both are stamped
   * `updatedAt = now`. The saved row, normalised, is returned.
   */
  function SaveUser(t: UserTable, input: UserUpsertInput, now: int, fault: Option<string>)
    : (r: (UserTable, Result<UserRecord, DbError>))
    ensures fault.Some? ==> r == (t, Err(Fault(fault.value)))
    ensures fault.None? ==>
              && r.0.Keys == t.Keys + {input.id}
              && r.1.Ok? && r.1.value == NormalizeRow(r.0[input.id])
              && forall k :: k in t && k != input.id ==> r.0[k] == t[k]
  {
    if fault.Some? then (t, Err(Fault(fault.value)))
    else
      var createdAt := if input.id in t then t[input.id].createdAt else now;
      var row := ApplyPayload(UserRow(input.id, input.username, Null, Null, Null, createdAt, now),
                              SaveValues(input, now));
      (t[input.id := row], Ok(NormalizeRow(row)))
  }

  /**
   * `updateUser(id, updates)` at `now`: no field to change means no write and
   * `null`; a missing row also yields `null`; a `null` username violates the
   * column's NOT NULL constraint and the update fails.
   */
  function UpdateUser(t: UserTable, id: string, updates: Updates, now: int, fault: Option<string>)
    : (r: (UserTable, Result<Option<UserRecord>, DbError>))
    ensures UpdatePayload(updates, now).None? ==> r == (t, Ok(None))
    ensures UpdatePayload(updates, now).Some? && fault.Some? ==> r == (t, Err(Fault(fault.value)))
    ensures UpdatePayload(updates, now).Some? && fault.None? && id !in t ==> r == (t, Ok(None))
    ensures UpdatePayload(updates, now).Some? && fault.None? && id in t ==>
              && (r.1.Err? ==> r == (t, Err(NotNullViolation("username"))))
              && (r.1.Ok? ==> && r.0.Keys == t.Keys && r.1 == Ok(Some(NormalizeRow(r.0[id])))
                              && forall k :: k in t && k != id ==> r.0[k] == t[k])
  {
    match UpdatePayload(updates, now)
    case None => (t, Ok(None))
    case Some(p) =>
      if fault.Some? then (t, Err(Fault(fault.value)))
      else if id !in t then (t, Ok(None))
      else if NullsUsername(p) then (t, Err(NotNullViolation("username")))
      else
        var row := ApplyPayload(t[id], p);
        (t[id := row], Ok(Some(NormalizeRow(row))))
  }

  /** `getUserById(id)`: a failure falls back to `null` instead of throwing. */
  function GetUserById(t: UserTable, id: string, fault: Option<string>): (r: Option<UserRecord>)
    ensures fault.Some? ==> r.None?
    ensures fault.None? ==> (r.Some? <==> id in t) && (r.Some? ==> r.value == NormalizeRow(t[id]))
  {
    if fault.Some? || id !in t then None else Some(NormalizeRow(t[id]))
  }

  /** Without a field to change `updateUser` issues no query, even though its payload holds the stamp, so a query failure cannot reach it. */
  lemma UpdateWithoutPayload(t: UserTable, id: string, updates: Updates, now: int, fault: Option<string>)
    requires "username" !in updates || updates["username"] == Undefined
    requires "displayName" !in updates && "avatar" !in updates && "locale" !in updates
    ensures UpdateUser(t, id, updates, now, fault) == (t, Ok(None))
  {
    UpdatePayloadShape(updates, now);
  }

  /** A successful update of an existing user stamps it with `now` and keeps its creation time and every other row. */
  lemma UpdateStampsRow(t: UserTable, id: string, updates: Updates, now: int)
    requires id in t && UpdatePayload(updates, now).Some?
    ensures var (t', r) := UpdateUser(t, id, updates, now, None);
      && (r.Ok? ==> r.value.Some? && r.value.value.updatedAt == now && r.value.value.createdAt == t[id].createdAt
                    && t'.Keys == t.Keys && t'[id].updatedAt == now
                    && forall k :: k in t && k != id ==> t'[k] == t[k])
      && (r.Err? ==> r.error == NotNullViolation("username") && t' == t)
  {
    UpdatePayloadShape(updates, now);
  }

  /**
   * An update of an existing user with a payload either fails on a `null`
   * username and changes nothing, or writes exactly the present fields, each
   * as its value `?? null` (a username only when it is a string), stamps
   * `updatedAt` with `now`, and keeps the absent columns, the creation time
   * and every other row.
   */
  lemma UpdateWritesPresentFields(t: UserTable, id: string, updates: Updates, now: int)
    requires id in t && UpdatePayload(updates, now).Some?
    ensures var (t', r) := UpdateUser(t, id, updates, now, None);
      var nulled := "username" in updates && updates["username"] == Null;
      && (nulled ==> t' == t && r == Err(NotNullViolation("username")))
      && (!nulled ==>
            && t'.Keys == t.Keys
            && r.Ok? && r.value.Some? && r.value.value == NormalizeRow(t'[id])
            && var rec := r.value.value;
            && rec.id == t[id].id && rec.createdAt == t[id].createdAt && rec.updatedAt == now
            && ("username" in updates && updates["username"].Defined? ==> rec.username == updates["username"].s)
            && ("username" !in updates || updates["username"] == Undefined ==> rec.username == t[id].username)
            && ("displayName" in updates ==> rec.displayName == OrNull(updates["displayName"]))
            && ("displayName" !in updates ==> rec.displayName == OrNull(t[id].displayName))
            && ("avatar" in updates ==> rec.avatar == OrNull(updates["avatar"]))
            && ("avatar" !in updates ==> rec.avatar == OrNull(t[id].avatar))
            && ("locale" in updates ==> rec.locale == OrNull(updates["locale"]))
            && ("locale" !in updates ==> rec.locale == OrNull(t[id].locale))
            && forall k :: k in t && k != id ==> t'[k] == t[k])
  {
    UpdatePayloadShape(updates, now);
    var p := UpdatePayload(updates, now).value;
    if "username" in updates && updates["username"] != Undefined {
      assert Username in p && NullCoalesced(updates["username"], p[Username]);
    } else { assert Username !in p; }
    if "displayName" in updates { assert DisplayName in p && NullCoalesced(updates["displayName"], p[DisplayName]); }
    else { assert DisplayName !in p; }
    if "avatar" in updates { assert Avatar in p && NullCoalesced(updates["avatar"], p[Avatar]); }
    else { assert Avatar !in p; }
    if "locale" in updates { assert Locale in p && NullCoalesced(updates["locale"], p[Locale]); }
    else { assert Locale !in p; }
  }

  /** An explicit `null` username is passed through by the payload and then refused by the database. */
  lemma NullUsernameRejected(t: UserTable, id: string, updates: Updates, now: int)
    requires id in t && "username" in updates && updates["username"] == Null
    ensures UpdateUser(t, id, updates, now, None) == (t, Err(NotNullViolation("username")))
  {
    UpdatePayloadShape(updates, now);
  }

  /** The record `saveUser` returns is what a later `getUserById` reads, with every absent optional field `null`. */
  lemma SaveThenGet(t: UserTable, input: UserUpsertInput, now: int)
    ensures var (t', saved) := SaveUser(t, input, now, None);
      && saved.Ok?
      && GetUserById(t', input.id, None) == Some(saved.value)
      && saved.value == UserRecord(input.id, input.username, OrNull(input.displayName), OrNull(input.avatar),
                                   OrNull(input.locale), if input.id in t then t[input.id].createdAt else now, now)
  {
    var v := SaveValues(input, now);
    assert NullCoalesced(input.displayName, v[DisplayName]) && NullCoalesced(input.avatar, v[Avatar]);
    assert NullCoalesced(input.locale, v[Locale]);
  }
}
