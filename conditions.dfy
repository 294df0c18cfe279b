/** `apply_filter_conditions`: narrowing the dataset by a conjunctive list of conditions,
    one list comprehension per condition, applied in list order. */
module Conditions {
  import opened PyBuiltins
  import opened Models

  /** The operators the if/elif chain recognises; any other operator filters nothing. */
  const Operators: set<string> := {"==", "!=", ">", "<", ">=", "<="}

  /** `lhs op rhs` for one of the four integer comparisons. */
  function Holds(op: string, lhs: int, rhs: int): bool
  {
    if op == ">" then lhs > rhs
    else if op == "<" then lhs < rhs
    else if op == ">=" then lhs >= rhs
    else lhs <= rhs
  }

  /** The test one comprehension applies to one row. `==` and `!=` compare `str()` forms,
      a missing field reading as `None`; the four orderings compare `int()` forms, a missing
      field reading as 0, and `int()` of the field is taken before `int()` of the value.
      A condition whose operator is unknown constrains nothing. */
  function Matches(r: Record, c: Condition): Result<bool>
  {
    if c.operator == "==" then
      Ok(Str(Get(r, c.field)) == c.value)
    else if c.operator == "!=" then
      Ok(Str(Get(r, c.field)) != c.value)
    else if c.operator in Operators then
      match Int(GetOr(r, c.field, IntV(0)))
      case Raised(e) => Raised(e)
      case Ok(lhs) =>
        match ParseInt(c.value)
        case Raised(e) => Raised(e)
        case Ok(rhs) => Ok(Holds(c.operator, lhs, rhs))
    else
      Ok(true)
  }

  /** `[r for r in records if test(r)]`: rows are tested front to back and the first
      exception ends the comprehension. */
  function KeepMatching(records: seq<Record>, c: Condition): Result<seq<Record>>
  {
    if records == [] then Ok([])
    else
      match Matches(records[0], c)
      case Raised(e) => Raised(e)
      case Ok(keep) =>
        match KeepMatching(records[1..], c)
        case Raised(e) => Raised(e)
        case Ok(rest) => Ok(if keep then [records[0]] + rest else rest)
  }

  /** One pass of the loop: a comprehension for a known operator, no change otherwise. */
  function ApplyCondition(records: seq<Record>, c: Condition): Result<seq<Record>>
  {
    if c.operator in Operators then KeepMatching(records, c) else Ok(records)
  }

  /** The loop over the conditions, condition by condition. */
  function FilterByConditions(records: seq<Record>, conds: seq<Condition>): Result<seq<Record>>
    decreases |conds|
  {
    if conds == [] then Ok(records)
    else
      match ApplyCondition(records, conds[0])
      case Raised(e) => Raised(e)
      case Ok(next) => FilterByConditions(next, conds[1..])
  }

  // ---------------------------------------------------------------------------
  // The same filter read row by row

  /** Whether one row passes every condition, tested in list order and stopping at the
      first condition it fails, exactly as the row meets them in the loop. */
  function Passes(r: Record, conds: seq<Condition>): Result<bool>
  {
    if conds == [] then Ok(true)
    else
      match Matches(r, conds[0])
      case Raised(e) => Raised(e)
      case Ok(b) => if b then Passes(r, conds[1..]) else Ok(false)
  }

  /** No row raises while it is being tested. */
  predicate AllEvaluate(records: seq<Record>, conds: seq<Condition>)
  {
    records == [] || (Passes(records[0], conds).Ok? && AllEvaluate(records[1..], conds))
  }

  /** The rows that pass every condition, in their original order. */
  function Selected(records: seq<Record>, conds: seq<Condition>): seq<Record>
  {
    if records == [] then []
    else (if Passes(records[0], conds) == Ok(true) then [records[0]] else [])
         + Selected(records[1..], conds)
  }

  /** `a` is `b` with some elements deleted, the rest kept in order. */
  predicate IsSubsequence(a: seq<Record>, b: seq<Record>)
    decreases |b|
  {
    if b == [] then a == []
    else IsSubsequence(a, b[1..]) || (a != [] && a[0] == b[0] && IsSubsequence(a[1..], b[1..]))
  }

  // ---------------------------------------------------------------------------
  // The loop itself

  /** `apply_filter_conditions`: reassigns the current list once per condition. It raises
      exactly when some row raises while being tested, and otherwise keeps exactly the rows
      that pass every condition, in order. */
  method ApplyFilterConditions(records: seq<Record>, conditions: seq<Condition>)
    returns (res: Result<seq<Record>>)
    ensures res == FilterByConditions(records, conditions)
    ensures res.Ok? <==> AllEvaluate(records, conditions)
    ensures res.Ok? ==> res.value == Selected(records, conditions)
    ensures conditions == [] ==> res == Ok(records)
  {
    FilterIsConjunction(records, conditions);
    var filtered := records;
    var i := 0;
    while i < |conditions|
      invariant 0 <= i <= |conditions|
      invariant FilterByConditions(filtered, conditions[i..]) == FilterByConditions(records, conditions)
    {
      assert conditions[i..][0] == conditions[i] && conditions[i..][1..] == conditions[i + 1..];
      var step := ApplyCondition(filtered, conditions[i]);
      if step.Raised? {
        return Raised(step.error);
      }
      filtered := step.value;
      i := i + 1;
    }
    assert conditions[i..] == [];
    return Ok(filtered);
  }

  // ---------------------------------------------------------------------------
  // Lemmas

  /** Against a single condition, a row passes exactly as it matches. */
  lemma PassesSingle(r: Record, c: Condition)
    ensures Passes(r, [c]) == Matches(r, c)
  {
    assert [c][1..] == [];
  }

  /** One comprehension raises exactly when some row raises on its condition, and
      otherwise keeps the rows that match it. */
  lemma {:induction false} KeepMatchingMeaning(records: seq<Record>, c: Condition)
    ensures KeepMatching(records, c)
         == if AllEvaluate(records, [c]) then Ok(Selected(records, [c])) else Raised(ValueError)
  {
    if records != [] {
      var r, tail := records[0], records[1..];
      KeepMatchingMeaning(tail, c);
      PassesSingle(r, c);
      var m := Matches(r, c);
      if m.Ok? && AllEvaluate(tail, [c]) {
        var kept := Selected(tail, [c]);
        assert KeepMatching(records, c) == Ok(if m.value then [r] + kept else kept);
        if m.value {
          assert Selected(records, [c]) == [r] + kept;
        } else {
          assert Selected(records, [c]) == kept;
        }
      } else {
        assert !AllEvaluate(records, [c]);
        assert KeepMatching(records, c).Raised?;
      }
    }
  }

  lemma {:induction false} UnknownOperatorSelectsAll(records: seq<Record>, c: Condition)
    requires c.operator !in Operators
    ensures AllEvaluate(records, [c]) && Selected(records, [c]) == records
  {
    if records != [] {
      var r, tail := records[0], records[1..];
      UnknownOperatorSelectsAll(tail, c);
      PassesSingle(r, c);
      assert Matches(r, c) == Ok(true);
      assert Selected(records, [c]) == [r] + tail;
    }
  }

  lemma ApplyConditionMeaning(records: seq<Record>, c: Condition)
    ensures ApplyCondition(records, c)
         == if AllEvaluate(records, [c]) then Ok(Selected(records, [c])) else Raised(ValueError)
  {
    if c.operator in Operators {
      KeepMatchingMeaning(records, c);
    } else {
      UnknownOperatorSelectsAll(records, c);
    }
  }

  lemma {:induction false} NoConditionsSelectAll(records: seq<Record>)
    ensures AllEvaluate(records, []) && Selected(records, []) == records
  {
    if records != [] {
      NoConditionsSelectAll(records[1..]);
    }
  }

  /** After the first condition has been applied without raising, the remaining
      conditions see exactly the rows that passed it. */
  lemma {:induction false} ConditionStep(records: seq<Record>, c: Condition, rest: seq<Condition>)
    requires AllEvaluate(records, [c])
    ensures AllEvaluate(records, [c] + rest) == AllEvaluate(Selected(records, [c]), rest)
    ensures Selected(records, [c] + rest) == Selected(Selected(records, [c]), rest)
  {
    var conds := [c] + rest;
    assert conds[0] == c && conds[1..] == rest;
    if records != [] {
      var r, tail := records[0], records[1..];
      ConditionStep(tail, c, rest);
      PassesSingle(r, c);
      var kept := Selected(tail, [c]);
      if Matches(r, c) == Ok(true) {
        assert Passes(r, conds) == Passes(r, rest);
        assert Selected(records, [c]) == [r] + kept;
        assert ([r] + kept)[0] == r && ([r] + kept)[1..] == kept;
        assert Selected(records, conds) == (if Passes(r, rest) == Ok(true) then [r] else []) + Selected(tail, conds);
      } else {
        assert Passes(r, conds) == Ok(false);
        assert Selected(records, [c]) == kept;
        assert Selected(records, conds) == Selected(tail, conds);
      }
    }
  }

  /** A row that raises on the first condition raises on the whole list. */
  lemma {:induction false} FirstConditionRaises(records: seq<Record>, c: Condition, rest: seq<Condition>)
    requires !AllEvaluate(records, [c])
    ensures !AllEvaluate(records, [c] + rest)
  {
    var conds := [c] + rest;
    assert conds[0] == c && conds[1..] == rest;
    PassesSingle(records[0], c);
    if Matches(records[0], c).Ok? {
      FirstConditionRaises(records[1..], c, rest);
    } else {
      assert Passes(records[0], conds).Raised?;
    }
  }

  /** Applying the conditions one after another, as the loop does, is filtering once by
      their conjunction: the loop raises exactly when some row raises while it is tested,
      and otherwise yields exactly the rows that pass every condition. */
  lemma {:induction false} FilterIsConjunction(records: seq<Record>, conds: seq<Condition>)
    ensures FilterByConditions(records, conds)
         == if AllEvaluate(records, conds) then Ok(Selected(records, conds)) else Raised(ValueError)
    decreases |conds|
  {
    if conds == [] {
      NoConditionsSelectAll(records);
    } else {
      var c, rest := conds[0], conds[1..];
      assert conds == [c] + rest;
      ApplyConditionMeaning(records, c);
      if AllEvaluate(records, [c]) {
        FilterIsConjunction(Selected(records, [c]), rest);
        ConditionStep(records, c, rest);
      } else {
        FirstConditionRaises(records, c, rest);
      }
    }
  }

  /** A row passes the list exactly when it matches every condition in it. */
  lemma {:induction false} PassesIffEveryCondition(r: Record, conds: seq<Condition>)
    ensures Passes(r, conds) == Ok(true)
        <==> forall j :: 0 <= j < |conds| ==> Matches(r, conds[j]) == Ok(true)
  {
    if conds != [] {
      PassesIffEveryCondition(r, conds[1..]);
      if Matches(r, conds[0]) == Ok(true) {
        forall j | 0 <= j < |conds| && (forall k :: 0 <= k < |conds[1..]| ==> Matches(r, conds[1..][k]) == Ok(true))
          ensures Matches(r, conds[j]) == Ok(true)
        {
          if j > 0 {
            assert conds[j] == conds[1..][j - 1];
          }
        }
      }
    }
  }

  /** A row is kept exactly when it is one of the input rows and passes every condition. */
  lemma {:induction false} SelectedMembership(records: seq<Record>, conds: seq<Condition>, r: Record)
    ensures r in Selected(records, conds) <==> r in records && Passes(r, conds) == Ok(true)
  {
    if records != [] {
      SelectedMembership(records[1..], conds, r);
      assert records == [records[0]] + records[1..];
    }
  }

  /** The kept rows are the input rows with some deleted and the rest in their order. */
  lemma {:induction false} SelectedIsSubsequence(records: seq<Record>, conds: seq<Condition>)
    ensures IsSubsequence(Selected(records, conds), records)
  {
    if records != [] {
      SelectedIsSubsequence(records[1..], conds);
      var tail := Selected(records[1..], conds);
      if Passes(records[0], conds) == Ok(true) {
        assert Selected(records, conds) == [records[0]] + tail;
        assert ([records[0]] + tail)[1..] == tail;
      } else {
        assert Selected(records, conds) == tail;
        assert IsSubsequence(tail, records[1..]);
      }
    }
  }

  /** Running the loop over `a + b` is running it over `a` and then over `b`. */
  lemma {:induction false} FilterComposes(records: seq<Record>, a: seq<Condition>, b: seq<Condition>)
    ensures FilterByConditions(records, a + b)
         == match FilterByConditions(records, a)
            case Raised(e) => Raised(e)
            case Ok(mid) => FilterByConditions(mid, b)
    decreases |a|
  {
    if a == [] {
      assert a + b == b;
    } else {
      assert (a + b)[0] == a[0] && (a + b)[1..] == a[1..] + b;
      match ApplyCondition(records, a[0])
      case Raised(e) =>
      case Ok(next) => FilterComposes(next, a[1..], b);
    }
  }

  /** A condition whose operator is none of the six is skipped wherever it stands. */
  lemma UnknownOperatorIsSkipped(records: seq<Record>, before: seq<Condition>, c: Condition, after: seq<Condition>)
    requires c.operator !in Operators
    ensures FilterByConditions(records, before + [c] + after) == FilterByConditions(records, before + after)
  {
    assert before + [c] + after == before + ([c] + after);
    FilterComposes(records, before, [c] + after);
    FilterComposes(records, before, after);
    assert ([c] + after)[0] == c && ([c] + after)[1..] == after;
  }

  /** An ordering condition whose value is not an integer raises exactly when there is a
      row to test it on; on an empty list nothing is evaluated. */
  lemma NonIntegerValueRaisesIffRowsRemain(records: seq<Record>, c: Condition)
    requires c.operator in {">", "<", ">=", "<="}
    requires ParseInt(c.value).Raised?
    ensures ApplyCondition(records, c).Raised? <==> records != []
  {
  }

  /** `==` compares text forms, so an integer column matches the text `str()` writes for
      its value and nothing else: `Lane == "1"` keeps exactly the rows in lane 1. */
  lemma IntColumnEquality(r: Record, n: int)
    ensures Matches(r, Condition("Lane", "==", IntToStr(n))) == Ok(r.lane == n)
    ensures Matches(r, Condition("Speed", "==", IntToStr(n))) == Ok(r.speed == n)
  {
    IntToStrInjective(r.lane, n);
    IntToStrInjective(r.speed, n);
  }

  /** A field the row does not have reads as `None` for `==`/`!=` and as 0 for the
      orderings. */
  lemma MissingField(r: Record, c: Condition)
    requires !IsColumn(c.field)
    ensures c.operator == "==" ==> Matches(r, c) == Ok(c.value == "None")
    ensures c.operator == "!=" ==> Matches(r, c) == Ok(c.value != "None")
    ensures c.operator in {">", "<", ">=", "<="} ==>
      Matches(r, c) == match ParseInt(c.value)
                       case Raised(e) => Raised(e)
                       case Ok(rhs) => Ok(Holds(c.operator, 0, rhs))
  {
  }
}
