/**
 * What the three persistence services share: JavaScript's optional and
 * nullable field values, the column values written to the database, and the
 * rule that turns a delete's `rowCount` into a boolean.
 */
module Persistence {
  import opened Wrappers

  /** The value of an optional, nullable string property: a string, `null`, or `undefined` (also when the key is absent). */
  datatype JsValue = Defined(s: string) | Null | Undefined

  /** `v ?? null`, with `null` as `None`. */
  function OrNull(v: JsValue): (r: Option<string>)
    ensures r.Some? <==> v.Defined?
    ensures r.Some? ==> r.value == v.s
  {
    if v.Defined? then Some(v.s) else None
  }

  /** A value written to a column. */
  datatype Column = Text(s: string) | NullValue | Timestamp(t: int)

  /** `c` is what `v ?? null` writes. */
  predicate NullCoalesced(v: JsValue, c: Column) {
    (v.Defined? ==> c == Text(v.s)) && (!v.Defined? ==> c == NullValue)
  }

  /** The column value of `v ?? null`. */
  function CoalescedColumn(v: JsValue): (c: Column)
    ensures NullCoalesced(v, c)
  {
    if v.Defined? then Text(v.s) else NullValue
  }

  /** The nullable text a column value leaves in a row; `fallback` for a value that is not text. */
  function StoredText(c: Column, fallback: JsValue): (v: JsValue)
    ensures c.Text? ==> v == Defined(c.s)
    ensures c.NullValue? ==> v == Null
  {
    match c
    case Text(s) => Defined(s)
    case NullValue => Null
    case Timestamp(_) => fallback
  }

  /** The own properties of an `updates` object and their values. */
  type Updates = map<string, JsValue>

  /**
   * `result.rowCount ? result.rowCount > 0 : true`: an absent or zero count
   * reads as success, and a driver count is never negative, so the answer
   * is always `true`.
   */
  function DeletedFlag(rowCount: Option<nat>): (b: bool)
    ensures b
  {
    if rowCount.Some? && rowCount.value != 0 then rowCount.value > 0 else true
  }

  /** What the flag evidently means: rows went, or the driver did not say. */
  function RowsDeleted(rowCount: Option<nat>): (b: bool)
    ensures rowCount.None? ==> b
    ensures rowCount.Some? ==> (b <==> rowCount.value > 0)
  {
    rowCount.None? || rowCount.value > 0
  }

  /** Why a query failed: a fault the driver reports for the query, or a violated column constraint. */
  datatype DbError =
    | Fault(message: string)
    | NotNullViolation(column: string)
    | ForeignKeyViolation(column: string)
}
