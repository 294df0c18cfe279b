/** `generate_sql_query`: the SQL text shown next to an answer, describing the query the
    filter object stands for. It is built by string interpolation and never executed. */
module SqlEngine {
  import opened PyBuiltins
  import opened Models
  import opened Sorting
  import opened Operations

  /** What the SELECT list is for each operation; anything but the three aggregates lists rows. */
  function SelectClause(operation: Option<string>): string
  {
    if operation == Some("count_vehicles") then "COUNT(*) as count"
    else if operation == Some("average_speed") then "AVG(Speed) as average_speed"
    else if operation == Some("max_speed") then "MAX(Speed) as max_speed"
    else "*"
  }

  /** One condition as SQL: `field operator value`, the value in single quotes only when the
      field is Direction. Nothing is escaped. */
  function RenderCondition(c: Condition): string
  {
    if c.field == "Direction" then c.field + " " + c.operator + " '" + c.value + "'"
    else c.field + " " + c.operator + " " + c.value
  }

  /** Python `[f(x) for x in s]`. */
  function Map<A, B>(s: seq<A>, f: A -> B): seq<B>
  {
    if s == [] then [] else [f(s[0])] + Map(s[1..], f)
  }

  /** The i-th element of the mapped list is `f` of the i-th element. */
  lemma {:induction false} MapIndex<A, B>(s: seq<A>, f: A -> B)
    ensures |Map(s, f)| == |s|
    ensures forall i :: 0 <= i < |s| ==> Map(s, f)[i] == f(s[i])
  {
    if s != [] {
      MapIndex(s[1..], f);
      MapCons(s[0], s[1..], f);
      assert s == [s[0]] + s[1..];
    }
  }

  lemma MapCons<A, B>(x: A, s: seq<A>, f: A -> B)
    ensures Map([x] + s, f) == [f(x)] + Map(s, f)
  {
    assert ([x] + s)[0] == x && ([x] + s)[1..] == s;
  }

  /** The rendered conditions, one per condition, in order. */
  function RenderAll(conds: seq<Condition>): seq<string>
  {
    Map(conds, RenderCondition)
  }

  /** Python `sep.join(parts)`. */
  function Join(sep: string, parts: seq<string>): string
  {
    if parts == [] then ""
    else if |parts| == 1 then parts[0]
    else parts[0] + sep + Join(sep, parts[1..])
  }

  /** `" AND ".join(where_parts) if where_parts else ""`. */
  function WhereClause(conds: seq<Condition>): string
  {
    var parts := RenderAll(conds);
    if parts != [] then Join(" AND ", parts) else ""
  }

  /** ASC exactly when the direction, defaulting to "ascending", is the word "ascending". */
  function OrderDirection(sortDirection: Option<string>): string
  {
    if OrElse(sortDirection, "ascending") == "ascending" then "ASC" else "DESC"
  }

  /** `ORDER BY field direction` when `sort_by` is set, nothing otherwise. */
  function OrderClause(f: FilterObject): string
  {
    if Truthy(f.sortBy) then "ORDER BY " + f.sortBy.value + " " + OrderDirection(f.sortDirection) else ""
  }

  /** The text `generate_sql_query` returns. */
  function Query(f: FilterObject): string
  {
    var where := WhereClause(f.conditions);
    var order := OrderClause(f);
    var head := "SELECT " + SelectClause(f.operation) + " FROM vehicles";
    var filtered := if where != "" then head + (" WHERE " + where) else head;
    if order != "" then filtered + (" " + order) else filtered
  }

  /** `generate_sql_query(filter_object)`, step by step as the source builds it. */
  method GenerateSqlQuery(f: FilterObject) returns (sql: string)
    ensures sql == Query(f)
  {
    var selectClause: string;
    if f.operation == Some("count_vehicles") {
      selectClause := "COUNT(*) as count";
    } else if f.operation == Some("average_speed") {
      selectClause := "AVG(Speed) as average_speed";
    } else if f.operation == Some("max_speed") {
      selectClause := "MAX(Speed) as max_speed";
    } else {
      selectClause := "*";
    }

    var whereParts: seq<string> := [];
    for i := 0 to |f.conditions|
      invariant |whereParts| == i
      invariant forall j :: 0 <= j < i ==> whereParts[j] == RenderCondition(f.conditions[j])
    {
      var c := f.conditions[i];
      var part: string;
      if c.field == "Direction" {
        part := c.field + " " + c.operator + " '" + c.value + "'";
      } else {
        part := c.field + " " + c.operator + " " + c.value;
      }
      whereParts := whereParts + [part];
    }
    MapIndex(f.conditions, RenderCondition);
    assert whereParts == RenderAll(f.conditions);
    assert selectClause == SelectClause(f.operation);
    var whereClause := if whereParts != [] then Join(" AND ", whereParts) else "";

    var orderClause := "";
    if Truthy(f.sortBy) {
      var direction := OrElse(f.sortDirection, "ascending");
      var orderDirection := if direction == "ascending" then "ASC" else "DESC";
      orderClause := "ORDER BY " + f.sortBy.value + " " + orderDirection;
    }

    assert orderClause == OrderClause(f);
    sql := "SELECT " + selectClause + " FROM vehicles";
    if whereClause != "" {
      sql := sql + (" WHERE " + whereClause);
    }
    if orderClause != "" {
      sql := sql + (" " + orderClause);
    }
  }

  // ---------------------------------------------------------------------------
  // Joining

  lemma {:induction false} JoinAppend(sep: string, a: seq<string>, b: seq<string>)
    requires a != [] && b != []
    ensures Join(sep, a + b) == Join(sep, a) + sep + Join(sep, b)
  {
    if |a| == 1 {
      assert (a + b)[1..] == b;
    } else {
      JoinAppend(sep, a[1..], b);
      assert (a + b)[1..] == a[1..] + b;
    }
  }

  /** A join of non-empty parts is non-empty: it starts with the first part. */
  lemma JoinStartsWithFirst(sep: string, parts: seq<string>)
    requires parts != []
    ensures |Join(sep, parts)| >= |parts[0]|
    ensures Join(sep, parts)[..|parts[0]|] == parts[0]
  {
  }

  // ---------------------------------------------------------------------------
  // What the query says

  /** The WHERE part appears exactly when there are conditions, and the ORDER BY part exactly
      when `sort_by` is set. */
  lemma ClausesPresent(f: FilterObject)
    ensures WhereClause(f.conditions) != "" <==> f.conditions != []
    ensures OrderClause(f) != "" <==> Truthy(f.sortBy)
  {
    if f.conditions != [] {
      var parts := RenderAll(f.conditions);
      JoinStartsWithFirst(" AND ", parts);
      assert |parts[0]| > 0;
    }
  }

  lemma {:induction false} MapAppend<A, B>(a: seq<A>, b: seq<A>, f: A -> B)
    ensures Map(a + b, f) == Map(a, f) + Map(b, f)
  {
    if a == [] {
      assert a + b == b;
    } else {
      MapAppend(a[1..], b, f);
      assert a + b == [a[0]] + (a[1..] + b);
      MapCons(a[0], a[1..] + b, f);
      assert a == [a[0]] + a[1..];
      MapCons(a[0], a[1..], f);
    }
  }

  /** The conditions of `a + b` render as those of `a`, AND, those of `b`: the WHERE clause
      keeps the conditions in their order. */
  lemma WhereJoinsInOrder(a: seq<Condition>, b: seq<Condition>)
    requires a != [] && b != []
    ensures WhereClause(a + b) == WhereClause(a) + " AND " + WhereClause(b)
  {
    MapAppend(a, b, RenderCondition);
    JoinAppend(" AND ", RenderAll(a), RenderAll(b));
  }

  /** The SELECT list names the aggregate `execute_operation` computes, and is `*` exactly
      when the engine answers with rows. */
  lemma SelectClauseMatchesResponse(records: seq<Record>, operation: Option<string>)
    ensures SelectClause(operation) == "*" <==> ExecuteOperation(records, operation).Rows?
    ensures SelectClause(operation) == "COUNT(*) as count" <==> ExecuteOperation(records, operation).Count?
    ensures SelectClause(operation) == "AVG(Speed) as average_speed" <==> ExecuteOperation(records, operation).AverageSpeed?
    ensures SelectClause(operation) == "MAX(Speed) as max_speed" <==> ExecuteOperation(records, operation).MaxSpeed?
  {
  }

  /** The query says DESC exactly when the engine sorts in reverse if and only if the
      direction, defaulting to "ascending", is "ascending" itself or lowercases to
      "descending". The two read other words differently: the query takes every word but
      "ascending" as DESC, the engine every word that does not lowercase to "descending" as
      ascending. */
  lemma OrderDirectionAgreement(records: seq<Record>, sortBy: string, sortDirection: Option<string>)
    ensures var w := OrElse(sortDirection, "ascending");
            (OrderDirection(sortDirection) == "DESC" <==> OrderingFor(records, sortBy, w).descending)
            <==> (w == "ascending" || Lower(w) == "descending")
  {
    var w := OrElse(sortDirection, "ascending");
    if w == "ascending" {
      LowerAscending(w);
    }
  }

  lemma LowerAscending(s: string)
    requires s == "ascending"
    ensures Lower(s) == s && s != "descending"
  {
    LowerOfNoCapitals(s);
  }

  /** "Descending" gives DESC and a reverse sort alike. (Each word is a parameter so that
      the solver does not evaluate `Lower` on the literal.) */
  lemma CapitalisedDescendingAgrees(records: seq<Record>, sortBy: string, word: string)
    requires word == "Descending"
    ensures OrderDirection(Some(word)) == "DESC" && OrderingFor(records, sortBy, word).descending
  {
    LowerCapitalisedDescending(word, "descending");
  }

  /** "Ascending" gives DESC in the query but an ascending sort in the engine. */
  lemma CapitalisedAscendingDisagrees(records: seq<Record>, sortBy: string, word: string)
    requires word == "Ascending"
    ensures OrderDirection(Some(word)) == "DESC" && !OrderingFor(records, sortBy, word).descending
  {
    assert word == ['A'] + word[1..] && word[0] != 'a';
    LowerOfCapitalised('A', word[1..]);
  }

  /** "desc" gives DESC in the query but an ascending sort in the engine. */
  lemma AbbreviationDisagrees(records: seq<Record>, sortBy: string, word: string)
    requires word == "desc"
    ensures OrderDirection(Some(word)) == "DESC" && !OrderingFor(records, sortBy, word).descending
  {
    LowerLength(word);
  }

  /** With no conditions and no sorting, counting gives the bare count query. */
  lemma CountQueryWithoutFilters(f: FilterObject)
    requires f == FilterObject([], Some("count_vehicles"), None, None)
    ensures Query(f) == "SELECT COUNT(*) as count FROM vehicles"
  {
    assert WhereClause(f.conditions) == "" && OrderClause(f) == "";
    var select := SelectClause(f.operation);
    assert select == "COUNT(*) as count";
    assert "SELECT " + select == "SELECT COUNT(*) as count";
  }

  /** The query for "average speed of northbound vehicles above 50, fastest first": its
      SELECT list, WHERE clause and ORDER BY clause, and the whole text as the SELECT line,
      the WHERE clause and the ORDER BY clause in sequence. */
  lemma AverageQueryExample(f: FilterObject)
    requires f == FilterObject(
               [Condition("Direction", "==", "North"), Condition("Speed", ">", "50")],
               Some("average_speed"), Some("Speed"), Some("descending"))
    ensures SelectClause(f.operation) == "AVG(Speed) as average_speed"
    ensures WhereClause(f.conditions) == "Direction == 'North' AND Speed > 50"
    ensures OrderClause(f) == "ORDER BY Speed DESC"
    ensures Query(f) == "SELECT " + "AVG(Speed) as average_speed" + " FROM vehicles"
                        + " WHERE " + "Direction == 'North' AND Speed > 50"
                        + " " + "ORDER BY Speed DESC"
  {
    NorthAndFaster(f.conditions[0], f.conditions[1], "Direction == 'North'", "Speed > 50");
    assert f.conditions == [f.conditions[0], f.conditions[1]];
    QueryOfClauses(f, "AVG(Speed) as average_speed", "Direction == 'North' AND Speed > 50", "ORDER BY Speed DESC");
  }

  /** A query with both a WHERE and an ORDER BY part is its SELECT line followed by the two
      clauses. */
  lemma QueryOfClauses(f: FilterObject, select: string, where: string, order: string)
    requires SelectClause(f.operation) == select && WhereClause(f.conditions) == where && OrderClause(f) == order
    requires where != "" && order != ""
    ensures Query(f) == "SELECT " + select + " FROM vehicles" + " WHERE " + where + " " + order
  {
  }

  lemma NorthAndFaster(north: Condition, fast: Condition, a: string, b: string)
    requires north == Condition("Direction", "==", "North") && a == "Direction == 'North'"
    requires fast == Condition("Speed", ">", "50") && b == "Speed > 50"
    ensures WhereClause([north, fast]) == "Direction == 'North' AND Speed > 50"
  {
    RenderedNorth(north, a);
    RenderedFast(fast, b);
    RenderTwo(north, fast);
    assert a + " AND " + b == "Direction == 'North' AND Speed > 50";
  }

  lemma RenderedNorth(north: Condition, a: string)
    requires north == Condition("Direction", "==", "North") && a == "Direction == 'North'"
    ensures RenderCondition(north) == a
  {
  }

  lemma RenderedFast(fast: Condition, b: string)
    requires fast == Condition("Speed", ">", "50") && b == "Speed > 50"
    ensures RenderCondition(fast) == b
  {
  }

  /** Two conditions give the WHERE clause `first AND second`. */
  lemma RenderTwo(c: Condition, d: Condition)
    ensures WhereClause([c, d]) == RenderCondition(c) + " AND " + RenderCondition(d)
  {
    assert [c, d] == [c] + [d];
    WhereJoinsInOrder([c], [d]);
    RenderOne(c);
    RenderOne(d);
  }

  /** A one-condition WHERE clause is that condition rendered. */
  lemma RenderOne(c: Condition)
    ensures WhereClause([c]) == RenderCondition(c)
  {
    assert [c] == [c] + [];
    MapCons(c, [], RenderCondition);
  }

  /** Values are pasted in without quoting or escaping: a single unquoted condition whose
      value ends in " AND " and a rendered condition gives the same WHERE clause, and so the
      same query, as the two conditions. */
  lemma InterpolationIsNotInjective(field: string, operator: string, value: string, d: Condition, f: FilterObject)
    requires field != "Direction"
    ensures var one := [Condition(field, operator, value + " AND " + RenderCondition(d))];
            var two := [Condition(field, operator, value), d];
            && one != two
            && WhereClause(one) == WhereClause(two)
            && Query(f.(conditions := one)) == Query(f.(conditions := two))
  {
    var c := Condition(field, operator, value + " AND " + RenderCondition(d));
    RenderOne(c);
    RenderTwo(Condition(field, operator, value), d);
    var lhs := field + " " + operator + " ";
    assert RenderCondition(c) == lhs + (value + " AND " + RenderCondition(d));
    assert RenderCondition(Condition(field, operator, value)) == lhs + value;
  }
}
