# Traffic filter engine and SQL generator

This project models the two services at the centre of the traffic question-answering
backend.

- **The filter engine**, `backend/app/services/filter_engine.py`, takes a filter object and
  the traffic dataset. It keeps the rows that satisfy every condition, sorts them when a
  sort field is named, and then lists them, counts them, or reports their average or
  maximum speed.
- **The SQL generator**, `backend/app/services/sql_engine.py`, renders the same filter
  object as a SQL `SELECT` statement for display.

The Python semantics the engine relies on are written out explicitly in `py_builtins.dfy`:

- `str()` and `int()` between integers and text;
- `str.lower()`;
- `<` on strings;
- the truthiness of `None` and `""`;
- the `ValueError` that `int()` raises on text that is not an integer.

Each file models one part of the system:

| file | models |
|---|---|
| `py_builtins.dfy` | the Python built-ins above, with `int(str(i)) == i` and the order laws of string `<` |
| `models.dfy` | a dataset row (`Record`), `dict.get` on it, `FilterCondition` and `FilterObject` |
| `conditions.dfy` | `apply_filter_conditions`, as a method with a loop over the conditions |
| `sorting.dfy` | `apply_sorting`, a stable sort by an integer key, falling back to a text key |
| `operations.dfy` | `execute_operation`: the list, count, average and maximum responses |
| `pipeline.dfy` | `process_filter`, as a method that chains the three steps |
| `sql_engine.dfy` | `generate_sql_query`, as a method with a loop over the conditions |

The main results:

- **Filtering is a conjunction.** Applying the conditions one after another, one list
  comprehension per condition, does one of two things:
  - it raises exactly when some row raises while it is being tested;
  - otherwise it yields exactly the rows that pass every condition, in their original
    order.
- **Sorting is correct and stable.** Sorting returns a permutation of its input, with
  keys that never decrease (or never increase, when reversed). Rows with equal keys keep
  their relative order.
- **Aggregates ignore order.** Count, average and maximum give the same result on any
  permutation of the rows, so sorting never changes an aggregate answer.
- **The SQL matches the engine:**
  - the `SELECT` list names exactly the aggregate the engine computes;
  - the `WHERE` clause keeps the conditions in order;
  - the `ORDER BY` direction agrees with the engine exactly when the direction (defaulting
    to "ascending") is "ascending" itself or lowercases to "descending". The two read every
    other word differently: the query takes each word but "ascending" as `DESC`, while the
    engine sorts ascending unless the word lowercases to "descending". So "Descending"
    agrees, and "Ascending" and "desc" do not.

## Model

| member | source | states |
|---|---|---|
| Conditions.ApplyFilterConditions | backend/app/services/filter_engine.py:26-66 | the loop raises exactly when some row raises on a condition it reaches; otherwise it returns exactly the rows passing every condition; with no conditions it returns the input unchanged |
| Conditions.FilterIsConjunction | backend/app/services/filter_engine.py:28-64 | condition-by-condition filtering equals one row-by-row filter by the conjunction: an exception if some row raises, else the passing rows in order |
| Conditions.KeepMatchingMeaning | backend/app/services/filter_engine.py:36-64 | one list comprehension raises exactly when a row raises on its test, and otherwise keeps exactly the rows that match, in order |
| Conditions.ApplyConditionMeaning | backend/app/services/filter_engine.py:35-64 | one pass of the loop, for any operator, is filtering by that single condition |
| Conditions.UnknownOperatorSelectsAll | backend/app/services/filter_engine.py:35-64 | an operator outside the six never raises and keeps every row |
| Conditions.UnknownOperatorIsSkipped | backend/app/services/filter_engine.py:30-64 | a condition with an unknown operator can be deleted from any position without changing the result |
| Conditions.FilterComposes | backend/app/services/filter_engine.py:28-30 | filtering by `a + b` is filtering by `a` and then by `b`, an exception from `a` ending it |
| Conditions.ConditionStep | backend/app/services/filter_engine.py:30-64 | after the first condition passes without raising, the remaining conditions see exactly the rows it kept |
| Conditions.FirstConditionRaises | backend/app/services/filter_engine.py:30-64 | a row that raises on the first condition makes the whole list raise |
| Conditions.NoConditionsSelectAll | backend/app/services/filter_engine.py:28 | with no conditions every row is kept and nothing raises |
| Conditions.PassesIffEveryCondition | backend/app/services/filter_engine.py:30-64 | a row passes the list exactly when it matches every condition |
| Conditions.SelectedMembership | backend/app/services/filter_engine.py:26-66 | a row is in the result exactly when it is an input row that passes every condition |
| Conditions.SelectedIsSubsequence | backend/app/services/filter_engine.py:36-64 | the result is the input with rows deleted and the rest kept in order |
| Conditions.PassesSingle | backend/app/services/filter_engine.py:35-64 | against a single condition a row passes exactly as it matches |
| Conditions.NonIntegerValueRaisesIffRowsRemain | backend/app/services/filter_engine.py:45-64 | an ordering condition whose value is not an integer raises exactly when there is a row left to test |
| Conditions.IntColumnEquality | backend/app/services/filter_engine.py:35-39 | `Lane == "n"` and `Speed == "n"` match exactly the rows whose integer equals n |
| Conditions.MissingField | backend/app/services/filter_engine.py:35-64 | a field the row lacks reads as the text `None` for `==` and `!=`, and as 0 for the orderings |
| PyBuiltins.ParseIntOfIntToStr | backend/app/services/filter_engine.py:38 | `int(str(i)) == i` for every integer |
| PyBuiltins.IntToStrInjective | backend/app/services/filter_engine.py:38 | two integers have the same `str()` exactly when they are equal |
| PyBuiltins.StrLessTransitive | backend/app/services/filter_engine.py:81 | the text sort key order is transitive |
| PyBuiltins.StrLessTotal | backend/app/services/filter_engine.py:81 | any two distinct text keys are ordered one way or the other |
| PyBuiltins.StrLessIrreflexive | backend/app/services/filter_engine.py:81 | no text key is below itself |
| PyBuiltins.LowerOfNoCapitals | backend/app/services/filter_engine.py:75 | text without capitals is its own lower case |
| Sorting.ApplySortingCorrect | backend/app/services/filter_engine.py:69-81 | the result is a permutation of the input; keys are non-increasing when the direction lowercased is "descending" and non-decreasing otherwise; rows with equal keys keep their input order |
| Sorting.StableSortCorrect | backend/app/services/filter_engine.py:79-81 | `sorted()` returns a permutation, ordered by key in the requested direction, that keeps every run of equal keys in its input order |
| Sorting.StableSortPermutes | backend/app/services/filter_engine.py:79-81 | the sort returns the same rows, with the same multiplicities |
| Sorting.StableSortSorted | backend/app/services/filter_engine.py:79-81 | no row of the output has a key that should come before an earlier row's key |
| Sorting.StableSortByKey | backend/app/services/filter_engine.py:79-81 | for each key, the rows with that key appear in the output in input order |
| Sorting.InsertSorted | backend/app/services/filter_engine.py:79-81 | inserting a row after all rows it does not precede keeps the list sorted |
| Sorting.InsertByKey | backend/app/services/filter_engine.py:79-81 | insertion appends the row to the run of its own key and leaves other runs unchanged |
| Sorting.InsertPermutes | backend/app/services/filter_engine.py:79-81 | insertion adds exactly one copy of the row |
| Sorting.ApplySortingWithoutField | backend/app/services/filter_engine.py:71-72 | an empty sort field returns the rows unchanged |
| Sorting.DirectionWords | backend/app/services/filter_engine.py:75 | "descending" and "Descending" sort in reverse; "ascending" and "Ascending" do not |
| Sorting.IntegerColumnsSortNumerically | backend/app/services/filter_engine.py:78-79 | sorting by Speed or Lane always uses the integer key, the row's own Speed or Lane |
| Sorting.SortByMissingFieldIsIdentity | backend/app/services/filter_engine.py:79 | sorting by a field the rows lack reads every key as 0 and returns the rows unchanged |
| Sorting.KeyLessTransitive | backend/app/services/filter_engine.py:79-81 | the key order is transitive |
| Sorting.KeyLessTotal | backend/app/services/filter_engine.py:79-81 | any two distinct keys are ordered one way or the other |
| Sorting.PrecedesAll | backend/app/services/filter_engine.py:79-81 | a row that precedes the head of a sorted list precedes every row of it |
| Operations.ExecuteOperation | backend/app/services/filter_engine.py:84-111 | no or "list_vehicles" or an unknown operation lists the rows; count is the number of rows; the average times the row count is the total speed, 0 when there are no rows; the maximum is None exactly for no rows, otherwise a speed some row has and none exceeds |
| Operations.MaxSpeedOf | backend/app/services/filter_engine.py:106 | the maximum is at least every row's speed and equal to some row's speed |
| Operations.SpeedOf | backend/app/services/filter_engine.py:98 | `int(r.get("Speed", 0))` never raises and is the row's speed |
| Operations.AverageAtMostMax | backend/app/services/filter_engine.py:94-107 | the average speed never exceeds the maximum speed |
| Operations.AverageAtLeast | backend/app/services/filter_engine.py:94-100 | if every row's speed is at least m, so is the average |
| Operations.AggregatesIgnoreOrder | backend/app/services/filter_engine.py:90-107 | count, average and maximum are equal on any two permutations of the same rows |
| Operations.TotalSpeedPermutation | backend/app/services/filter_engine.py:98 | the total speed is independent of row order |
| Operations.MaxSpeedPermutation | backend/app/services/filter_engine.py:106 | the maximum speed is independent of row order |
| Operations.SumPermutation | backend/app/services/filter_engine.py:98 | a sum is independent of the order of its terms |
| Operations.SumAppend | backend/app/services/filter_engine.py:98 | the sum over a concatenation is the sum of the two sums |
| Operations.SumAtMost | backend/app/services/filter_engine.py:98 | terms all at most m sum to at most m times their number |
| Operations.SumAtLeast | backend/app/services/filter_engine.py:98 | terms all at least m sum to at least m times their number |
| FilterEngine.ProcessFilter | backend/app/services/filter_engine.py:114-141 | the pipeline returns `Process`: it raises exactly when some row raises on a condition, and a count answer is the number of rows passing every condition |
| FilterEngine.ProcessMeaning | backend/app/services/filter_engine.py:127-141 | raises exactly when some row raises on a condition; otherwise aggregates equal those of the selected rows whatever the sort, and a list answer holds exactly the selected rows, in input order when no sort field is set |
| FilterEngine.Arrange | backend/app/services/filter_engine.py:131-136 | the sorting step keeps the same rows, and changes nothing when `sort_by` is empty or missing |
| FilterEngine.NorthboundFasterThan50 | backend/tests/test_filter_engine.py:58-71 | the conditions `Direction == North`, `Speed > 50` never raise and keep exactly the northbound rows faster than 50 |
| SqlEngine.GenerateSqlQuery | backend/app/services/sql_engine.py:4-51 | the text built step by step is `Query`: the SELECT line, then ` WHERE ` and the rendered conditions only when there are some, then the ORDER BY clause only when `sort_by` is set |
| SqlEngine.ClausesPresent | backend/app/services/sql_engine.py:35-49 | the WHERE part is present exactly when there are conditions, and the ORDER BY part exactly when `sort_by` is set |
| SqlEngine.WhereJoinsInOrder | backend/app/services/sql_engine.py:21-35 | the WHERE clause of `a + b` is that of `a`, ` AND `, that of `b`: conditions appear in their order |
| SqlEngine.MapIndex | backend/app/services/sql_engine.py:21-33 | the loop makes one rendered part per condition, the i-th part rendering the i-th condition |
| SqlEngine.MapAppend | backend/app/services/sql_engine.py:21-33 | rendering a concatenation of conditions concatenates their renderings |
| SqlEngine.JoinAppend | backend/app/services/sql_engine.py:35 | joining a concatenation of non-empty lists puts one separator between the two joins |
| SqlEngine.JoinStartsWithFirst | backend/app/services/sql_engine.py:35 | a join begins with its first part |
| SqlEngine.RenderTwo | backend/app/services/sql_engine.py:21-35 | two conditions give `first AND second` |
| SqlEngine.RenderOne | backend/app/services/sql_engine.py:21-35 | a single condition gives the WHERE clause that condition alone |
| SqlEngine.SelectClauseMatchesResponse | backend/app/services/sql_engine.py:11-18 | the SELECT list is `*` exactly when `execute_operation` answers with rows, and names COUNT, AVG or MAX exactly when it answers with that aggregate |
| SqlEngine.OrderDirectionAgreement | backend/app/services/sql_engine.py:38-42 | for every direction, the query says DESC exactly when `apply_sorting` sorts in reverse if and only if the direction (defaulting to "ascending") is "ascending" or lowercases to "descending" |
| SqlEngine.CapitalisedDescendingAgrees | backend/app/services/sql_engine.py:41 | "Descending" gives DESC and a reverse sort in the engine alike |
| SqlEngine.CapitalisedAscendingDisagrees | backend/app/services/sql_engine.py:41 | "Ascending" gives DESC while the engine, which lowercases, sorts ascending |
| SqlEngine.AbbreviationDisagrees | backend/app/services/sql_engine.py:41 | "desc" gives DESC while the engine sorts ascending |
| SqlEngine.InterpolationIsNotInjective | backend/app/services/sql_engine.py:28-33 | values are pasted in unescaped: one condition whose value contains ` AND ` and a second rendered condition gives the same WHERE clause and query as the two conditions |
| SqlEngine.CountQueryWithoutFilters | backend/tests/test_sql_engine.py:15-18 | a count with no conditions and no sort gives exactly `SELECT COUNT(*) as count FROM vehicles` |
| SqlEngine.AverageQueryExample | backend/tests/test_sql_engine.py:20-33 | the average-speed query for North, Speed > 50, sorted by Speed descending is the whole text `SELECT AVG(Speed) as average_speed FROM vehicles WHERE Direction == 'North' AND Speed > 50 ORDER BY Speed DESC`, so it contains each of the three pieces the example expects |
| SqlEngine.QueryOfClauses | backend/app/services/sql_engine.py:45-49 | with both clauses present, the query is the SELECT line, ` WHERE ` and the conditions, a space and the ORDER BY clause |
| SqlEngine.NorthAndFaster | backend/tests/test_sql_engine.py:24-32 | the two example conditions render as `Direction == 'North' AND Speed > 50` |

## Left out

- `load_traffic_data` (`backend/app/services/filter_engine.py:7-23`) reads a CSV file. The model takes the rows it would return as a parameter, with Lane and Speed already integers.
- `FilterObject` in `backend/app/models/aiModel.py:15-18` declares no `sort_direction`, yet both `process_filter` and `generate_sql_query` read `filter_object.sort_direction` when `sort_by` is set. The model gives the filter object an optional `sortDirection` and does not model the attribute error that reading the undeclared field would raise.
- Operations.ExecuteOperation: the average is the exact quotient; the float division and `round(average, 2)` are not modelled, so the model states `average * count == total` rather than a rounded value.
- PyBuiltins.ParseInt accepts an optional sign followed by ASCII digits. The surrounding whitespace, underscores and non-ASCII digits that Python's `int()` also accepts are not modelled.
- PyBuiltins.ParseInt and PyBuiltins.IntToStr have no length limit. Python 3.11 and later raise `ValueError` from `int()` and `str()` on integers of more than 4300 digits; the model does not.
- PyBuiltins.Lower lowercases the ASCII letters only; Unicode case mapping is not modelled.
- The `TypeError` that `apply_sorting` also catches cannot arise with rows of text and integers, so only the `ValueError` fallback is modelled.
- Operations.MaxSpeedOf does not model which of several equal maxima Python's `max()` returns; for integers the value is the same.
- The SQL text is only built, never run against a database; `execute_sql_query`, which the SQL tests import, is not part of `backend/app/services/sql_engine.py` and is not part of this model.
- The HTTP API, the language-model call that turns a question into a filter object, and pydantic's validation of that object are not part of this model.
