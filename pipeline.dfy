/** `process_filter`: the whole answer to one filter object — keep the rows that meet every
    condition, sort them when a field is named, then run the requested operation. */
module FilterEngine {
  import opened PyBuiltins
  import opened Models
  import opened Conditions
  import opened Sorting
  import opened Operations

  /** The sorting step: `apply_sorting(rows, sort_by, sort_direction or "ascending")` when
      `sort_by` is set, the rows as they are otherwise. Either way the same rows remain. */
  function Arrange(records: seq<Record>, f: FilterObject): (out: seq<Record>)
    ensures multiset(out) == multiset(records)
    ensures !Truthy(f.sortBy) ==> out == records
  {
    if Truthy(f.sortBy) then
      var direction := OrElse(f.sortDirection, "ascending");
      ApplySortingCorrect(records, f.sortBy.value, direction);
      ApplySorting(records, f.sortBy.value, direction)
    else
      records
  }

  /** What `process_filter` returns: the exception of the filtering step, or the
      operation's response on the filtered and arranged rows. */
  function Process(records: seq<Record>, f: FilterObject): Result<Response>
  {
    match FilterByConditions(records, f.conditions)
    case Raised(e) => Raised(e)
    case Ok(kept) => Ok(ExecuteOperation(Arrange(kept, f), f.operation))
  }

  /** The pipeline raises exactly when some row raises on a condition. Otherwise the
      aggregates are those of the selected rows whatever the sort, and a list response holds
      exactly the selected rows, in their original order when no sort field is given. */
  lemma ProcessMeaning(records: seq<Record>, f: FilterObject)
    ensures Process(records, f).Raised? <==> !AllEvaluate(records, f.conditions)
    ensures var res := Process(records, f);
            var selected := Selected(records, f.conditions);
            && (res.Ok? && f.operation.Some? && IsAggregate(f.operation.value) ==>
                  res.value == ExecuteOperation(selected, f.operation))
            && (res.Ok? && f.operation == Some("count_vehicles") ==> res.value == Count(|selected|))
            && (res.Ok? && res.value.Rows? ==> multiset(res.value.records) == multiset(selected))
            && (res.Ok? && res.value.Rows? && !Truthy(f.sortBy) ==> res.value.records == selected)
  {
    FilterIsConjunction(records, f.conditions);
    if AllEvaluate(records, f.conditions) {
      var selected := Selected(records, f.conditions);
      var rows := Arrange(selected, f);
      if f.operation.Some? && IsAggregate(f.operation.value) {
        AggregatesIgnoreOrder(rows, selected, f.operation);
      }
    }
  }

  /** `process_filter(filter_object)` on the rows the loader returned. */
  method ProcessFilter(records: seq<Record>, f: FilterObject) returns (res: Result<Response>)
    ensures res == Process(records, f)
    ensures res.Raised? <==> !AllEvaluate(records, f.conditions)
    ensures res.Ok? && f.operation == Some("count_vehicles") ==>
              res.value == Count(|Selected(records, f.conditions)|)
  {
    ProcessMeaning(records, f);
    var filtered := ApplyFilterConditions(records, f.conditions);
    if filtered.Raised? {
      return Raised(filtered.error);
    }
    var rows := filtered.value;
    if Truthy(f.sortBy) {
      rows := ApplySorting(rows, f.sortBy.value, OrElse(f.sortDirection, "ascending"));
    }
    assert rows == Arrange(filtered.value, f);
    res := Ok(ExecuteOperation(rows, f.operation));
  }

  /** The conditions of the example question "how many northbound vehicles went faster
      than 50": they never raise, and they keep exactly the rows heading North with a speed
      above 50. */
  lemma NorthboundFasterThan50(records: seq<Record>)
    ensures var conds := [Condition("Direction", "==", "North"), Condition("Speed", ">", "50")];
            && AllEvaluate(records, conds)
            && forall r :: r in Selected(records, conds) <==> r in records && r.direction == "North" && r.speed > 50
  {
    var conds := [Condition("Direction", "==", "North"), Condition("Speed", ">", "50")];
    assert AllDigits("50") && DigitsValue("5") == 5;
    assert ParseInt("50") == Ok(50);
    AllConditionsEvaluate(records, conds);
    forall r ensures r in Selected(records, conds) <==> r in records && r.direction == "North" && r.speed > 50 {
      SelectedMembership(records, conds, r);
      PassesIffEveryCondition(r, conds);
    }
  }

  /** Conditions that evaluate on every row never raise. */
  lemma {:induction false} AllConditionsEvaluate(records: seq<Record>, conds: seq<Condition>)
    requires forall r, j :: 0 <= j < |conds| ==> Matches(r, conds[j]).Ok?
    ensures AllEvaluate(records, conds)
  {
    if records != [] {
      PassesEvaluates(records[0], conds);
      AllConditionsEvaluate(records[1..], conds);
    }
  }

  lemma {:induction false} PassesEvaluates(r: Record, conds: seq<Condition>)
    requires forall j :: 0 <= j < |conds| ==> Matches(r, conds[j]).Ok?
    ensures Passes(r, conds).Ok?
  {
    if conds != [] {
      PassesEvaluates(r, conds[1..]);
    }
  }
}
