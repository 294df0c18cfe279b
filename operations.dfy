/** `execute_operation`: what a query returns once its rows are chosen and ordered — the
    rows themselves, how many there are, their average speed or their maximum speed. */
module Operations {
  import opened PyBuiltins
  import opened Models

  /** The response of `execute_operation`: the list of rows, or a one-entry dictionary
      `{"count": …}`, `{"average_speed": …}` or `{"max_speed": …}`. */
  datatype Response =
    | Rows(records: seq<Record>)
    | Count(count: nat)
    | AverageSpeed(average: real)
    | MaxSpeed(max: Option<int>)

  /** The four operation names the engine knows. */
  predicate IsAggregate(operation: string)
  {
    operation == "count_vehicles" || operation == "average_speed" || operation == "max_speed"
  }

  /** `int(r.get("Speed", 0))`: every row has an integer Speed, so this is that speed. */
  function SpeedOf(r: Record): (s: int)
    ensures Int(GetOr(r, "Speed", IntV(0))) == Ok(s)
  {
    r.speed
  }

  /** Python `sum(f(x) for x in s)`. */
  function Sum<T>(s: seq<T>, f: T -> int): int
  {
    if s == [] then 0 else f(s[0]) + Sum(s[1..], f)
  }

  /** `sum(int(r.get("Speed", 0)) for r in records)`. */
  function TotalSpeed(records: seq<Record>): int
  {
    Sum(records, SpeedOf)
  }

  /** `max(int(r.get("Speed", 0)) for r in records)` on a non-empty list: a speed some row
      has and no row exceeds. */
  function MaxSpeedOf(records: seq<Record>): (m: int)
    requires records != []
    ensures forall i :: 0 <= i < |records| ==> SpeedOf(records[i]) <= m
    ensures exists i :: 0 <= i < |records| && SpeedOf(records[i]) == m
  {
    if |records| == 1 then
      SpeedOf(records[0])
    else
      var rest := MaxSpeedOf(records[1..]);
      assert forall i :: 1 <= i < |records| ==> records[i] == records[1..][i - 1];
      if SpeedOf(records[0]) >= rest then SpeedOf(records[0]) else rest
  }

  /** `execute_operation(records, operation)`. The average is the exact quotient; the
      two-decimal rounding is not modelled. */
  function ExecuteOperation(records: seq<Record>, operation: Option<string>): (r: Response)
    ensures !Truthy(operation) || operation.value == "list_vehicles" ==> r == Rows(records)
    ensures Truthy(operation) && operation.value != "list_vehicles" && !IsAggregate(operation.value) ==> r == Rows(records)
    ensures operation == Some("count_vehicles") ==> r == Count(|records|)
    ensures operation == Some("average_speed") ==>
              && r.AverageSpeed?
              && (records == [] ==> r.average == 0.0)
              && r.average * (|records| as real) == TotalSpeed(records) as real
    ensures operation == Some("max_speed") ==>
              && r.MaxSpeed?
              && (r.max.None? <==> records == [])
              && (r.max.Some? ==> (forall i :: 0 <= i < |records| ==> SpeedOf(records[i]) <= r.max.value)
                                   && exists i :: 0 <= i < |records| && SpeedOf(records[i]) == r.max.value)
  {
    if !Truthy(operation) || operation.value == "list_vehicles" then
      Rows(records)
    else if operation.value == "count_vehicles" then
      Count(|records|)
    else if operation.value == "average_speed" then
      if records == [] then AverageSpeed(0.0)
      else AverageSpeed(TotalSpeed(records) as real / |records| as real)
    else if operation.value == "max_speed" then
      if records == [] then MaxSpeed(None) else MaxSpeed(Some(MaxSpeedOf(records)))
    else
      Rows(records)
  }

  // ---------------------------------------------------------------------------
  // Totals

  lemma {:induction false} SumAppend<T>(a: seq<T>, b: seq<T>, f: T -> int)
    ensures Sum(a + b, f) == Sum(a, f) + Sum(b, f)
  {
    if a == [] {
      assert a + b == b;
    } else {
      SumAppend(a[1..], b, f);
      assert (a + b)[0] == a[0] && (a + b)[1..] == a[1..] + b;
    }
  }

  /** Taking out the element at `i` takes one copy of it out of the multiset. */
  lemma RemoveAt<T>(b: seq<T>, i: nat)
    requires i < |b|
    ensures multiset(b[..i] + b[i + 1..]) == multiset(b) - multiset{b[i]}
  {
    assert b == b[..i] + [b[i]] + b[i + 1..];
  }

  lemma SumCons<T>(x: T, s: seq<T>, f: T -> int)
    ensures Sum([x] + s, f) == f(x) + Sum(s, f)
  {
    assert ([x] + s)[0] == x && ([x] + s)[1..] == s;
  }

  lemma SumRemoveAt<T>(b: seq<T>, i: nat, f: T -> int)
    requires i < |b|
    ensures Sum(b, f) == f(b[i]) + Sum(b[..i] + b[i + 1..], f)
  {
    assert b == b[..i] + ([b[i]] + b[i + 1..]);
    SumMiddle(b[..i], b[i], b[i + 1..], f);
  }

  lemma SumMiddle<T>(pre: seq<T>, x: T, post: seq<T>, f: T -> int)
    ensures Sum(pre + ([x] + post), f) == f(x) + Sum(pre + post, f)
  {
    SumAppend(pre, [x] + post, f);
    SumCons(x, post, f);
    SumAppend(pre, post, f);
  }

  /** A sum does not depend on the order of its terms. */
  lemma {:induction false} SumPermutation<T>(a: seq<T>, b: seq<T>, f: T -> int)
    requires multiset(a) == multiset(b)
    ensures Sum(a, f) == Sum(b, f)
    decreases |a|
  {
    if a != [] {
      var i := MatchHead(a, b);
      SumPermutation(a[1..], b[..i] + b[i + 1..], f);
      SumRemoveAt(b, i, f);
    }
  }

  /** The first element of `a` sits somewhere in its permutation `b`; the rest of `a` is a
      permutation of `b` without it. */
  lemma MatchHead<T>(a: seq<T>, b: seq<T>) returns (i: nat)
    requires a != [] && multiset(a) == multiset(b)
    ensures i < |b| && b[i] == a[0]
    ensures multiset(a[1..]) == multiset(b[..i] + b[i + 1..])
  {
    assert a[0] in multiset(a);
    assert a[0] in b;
    i :| 0 <= i < |b| && b[i] == a[0];
    RemoveAt(b, i);
    RemoveHead(a);
  }

  lemma RemoveHead<T>(a: seq<T>)
    requires a != []
    ensures multiset(a[1..]) == multiset(a) - multiset{a[0]}
  {
    assert a == [a[0]] + a[1..];
  }

  /** The total speed does not depend on the order of the rows. */
  lemma TotalSpeedPermutation(a: seq<Record>, b: seq<Record>)
    requires multiset(a) == multiset(b)
    ensures TotalSpeed(a) == TotalSpeed(b)
  {
    SumPermutation(a, b, SpeedOf);
  }

  lemma {:induction false} SumAtMost<T>(s: seq<T>, f: T -> int, m: int)
    requires forall i :: 0 <= i < |s| ==> f(s[i]) <= m
    ensures Sum(s, f) <= |s| * m
  {
    if s != [] {
      assert forall i :: 0 <= i < |s[1..]| ==> s[1..][i] == s[i + 1];
      SumAtMost(s[1..], f, m);
    }
  }

  lemma {:induction false} SumAtLeast<T>(s: seq<T>, f: T -> int, m: int)
    requires forall i :: 0 <= i < |s| ==> m <= f(s[i])
    ensures |s| * m <= Sum(s, f)
  {
    if s != [] {
      assert forall i :: 0 <= i < |s[1..]| ==> s[1..][i] == s[i + 1];
      SumAtLeast(s[1..], f, m);
    }
  }

  /** The average speed never exceeds the maximum speed. */
  lemma AverageAtMostMax(records: seq<Record>)
    requires records != []
    ensures ExecuteOperation(records, Some("average_speed")).average
            <= ExecuteOperation(records, Some("max_speed")).max.value as real
  {
    var m := MaxSpeedOf(records);
    var n := |records| as real;
    var avg := ExecuteOperation(records, Some("average_speed")).average;
    SumAtMost(records, SpeedOf, m);
    assert avg * n <= m as real * n;
  }

  /** When every row goes at least `m`, so does the average. */
  lemma AverageAtLeast(records: seq<Record>, m: int)
    requires records != []
    requires forall i :: 0 <= i < |records| ==> m <= SpeedOf(records[i])
    ensures m as real <= ExecuteOperation(records, Some("average_speed")).average
  {
    var n := |records| as real;
    var avg := ExecuteOperation(records, Some("average_speed")).average;
    SumAtLeast(records, SpeedOf, m);
    assert m as real * n <= avg * n;
  }

  /** The maximum is determined by which rows are present, not by their order. */
  lemma MaxSpeedPermutation(a: seq<Record>, b: seq<Record>)
    requires a != [] && multiset(a) == multiset(b)
    ensures b != [] && MaxSpeedOf(a) == MaxSpeedOf(b)
  {
    assert a[0] in multiset(b);
    var ma, mb := MaxSpeedOf(a), MaxSpeedOf(b);
    var i :| 0 <= i < |a| && SpeedOf(a[i]) == ma;
    var j :| 0 <= j < |b| && SpeedOf(b[j]) == mb;
    assert a[i] in multiset(b);
    assert b[j] in multiset(a);
  }

  /** Counting, averaging and taking the maximum give the same answer however the rows
      are ordered; only the list response shows the order. */
  lemma AggregatesIgnoreOrder(a: seq<Record>, b: seq<Record>, operation: Option<string>)
    requires multiset(a) == multiset(b)
    requires operation.Some? && IsAggregate(operation.value)
    ensures ExecuteOperation(a, operation) == ExecuteOperation(b, operation)
  {
    assert |a| == |multiset(a)| == |b|;
    TotalSpeedPermutation(a, b);
    if a != [] {
      MaxSpeedPermutation(a, b);
    }
  }
}
