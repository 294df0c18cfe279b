/** The shapes the traffic filter works on: dataset rows, and the filter object a question
    is turned into. */
module Models {
  import opened PyBuiltins

  /** One row of the traffic dataset, with Lane and Speed already converted to integers
      as the loader does. */
  datatype Record = Record(collectionTime: string, direction: string, lane: int, speed: int)

  /** The four column names a row has. */
  predicate IsColumn(field: string)
  {
    field == "CollectionTime" || field == "Direction" || field == "Lane" || field == "Speed"
  }

  /** `r.get(field)` on the row read as a dictionary keyed by its column names. */
  function Get(r: Record, field: string): Option<Value>
  {
    if field == "CollectionTime" then Some(StrV(r.collectionTime))
    else if field == "Direction" then Some(StrV(r.direction))
    else if field == "Lane" then Some(IntV(r.lane))
    else if field == "Speed" then Some(IntV(r.speed))
    else None
  }

  /** `r.get(field, default)`. */
  function GetOr(r: Record, field: string, default: Value): Value
  {
    match Get(r, field)
    case Some(v) => v
    case None => default
  }

  /** One `field operator value` triple; all three are text. */
  datatype Condition = Condition(field: string, operator: string, value: string)

  /** The structured form of a question. `sortDirection` is read by both engines
      although the pydantic class does not declare it. */
  datatype FilterObject = FilterObject(
    conditions: seq<Condition>,
    operation: Option<string>,
    sortBy: Option<string>,
    sortDirection: Option<string>)
}
