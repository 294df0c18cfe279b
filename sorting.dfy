/** `apply_sorting`: Python's stable `sorted()` on one field, trying integer keys first and
    falling back to text keys when `int()` raises for some row. */
module Sorting {
  import opened PyBuiltins
  import opened Models

  /** A sort key: `int(x.get(sort_by, 0))` or `str(x.get(sort_by, ""))`. */
  datatype Key = IntKey(n: int) | StrKey(s: string)

  /** Python `<` between two keys of one sort. A sort uses one kind of key only; placing
      integer keys before text keys just makes the order total. */
  predicate KeyLess(a: Key, b: Key)
  {
    match a
    case IntKey(x) => (match b case IntKey(y) => x < y case StrKey(_) => true)
    case StrKey(x) => (match b case IntKey(_) => false case StrKey(y) => StrLess(x, y))
  }

  /** `int(x.get(sort_by, 0))`. */
  function IntKeyOf(r: Record, field: string): Result<int>
  {
    Int(GetOr(r, field, IntV(0)))
  }

  /** `str(x.get(sort_by, ""))`. */
  function StrKeyOf(r: Record, field: string): string
  {
    Str(Some(GetOr(r, field, StrV(""))))
  }

  /** The integer attempt succeeds: `int()` raises for no row. */
  predicate NumericKeys(records: seq<Record>, field: string)
  {
    forall i :: 0 <= i < |records| ==> IntKeyOf(records[i], field).Ok?
  }

  /** How one call of `sorted()` orders rows: by which field, with which kind of key, and
      whether `reverse` is set. */
  datatype Ordering = Ordering(field: string, numeric: bool, descending: bool)

  /** The key `sorted()` computes for a row. In a numeric sort `int()` raises for no row,
      so the fallback 0 is never used. */
  function SortKey(r: Record, o: Ordering): Key
  {
    if o.numeric then
      match IntKeyOf(r, o.field)
      case Ok(n) => IntKey(n)
      case Raised(_) => IntKey(0)
    else
      StrKey(StrKeyOf(r, o.field))
  }

  /** The key function `apply_sorting` passes to `sorted()`. */
  function KeyFn(o: Ordering): Record -> Key
  {
    r => SortKey(r, o)
  }

  /** `a` must come strictly before `b` in the output: its key is smaller, or larger when
      sorting in reverse. Rows with equal keys precede each other in neither direction. */
  predicate Precedes<T>(a: T, b: T, key: T -> Key, descending: bool)
  {
    if descending then KeyLess(key(b), key(a)) else KeyLess(key(a), key(b))
  }

  /** No row precedes an earlier one: keys non-decreasing, or non-increasing in reverse. */
  predicate Sorted<T>(t: seq<T>, key: T -> Key, descending: bool)
  {
    forall i, j :: 0 <= i < j < |t| ==> !Precedes(t[j], t[i], key, descending)
  }

  /** The rows whose key is `k`, in their order. A sort is stable when it leaves every such
      subsequence as it found it. */
  function ByKey<T>(s: seq<T>, k: Key, key: T -> Key): seq<T>
  {
    if s == [] then []
    else (if key(s[0]) == k then [s[0]] else []) + ByKey(s[1..], k, key)
  }

  /** Places `x` after every row it does not precede, that is, after all rows with an
      equal key; `t` is already sorted. */
  function Insert<T>(t: seq<T>, x: T, key: T -> Key, descending: bool): seq<T>
  {
    if t == [] then [x]
    else if Precedes(x, t[0], key, descending) then [x] + t
    else [t[0]] + Insert(t[1..], x, key, descending)
  }

  /** Python's `sorted(s, key=key, reverse=descending)`: a stable sort, here by insertion. */
  function StableSort<T>(s: seq<T>, key: T -> Key, descending: bool): seq<T>
  {
    if s == [] then []
    else Insert(StableSort(s[..|s| - 1], key, descending), s[|s| - 1], key, descending)
  }

  /** The ordering `apply_sorting` uses: integer keys when no row makes `int()` raise, and
      reverse exactly when the direction lowercased is "descending". */
  function OrderingFor(records: seq<Record>, sortBy: string, sortDirection: string): Ordering
  {
    Ordering(sortBy, NumericKeys(records, sortBy), Lower(sortDirection) == "descending")
  }

  /** `apply_sorting(records, sort_by, sort_direction)`. */
  function ApplySorting(records: seq<Record>, sortBy: string, sortDirection: string): seq<Record>
  {
    if sortBy == "" then records
    else
      var o := OrderingFor(records, sortBy, sortDirection);
      StableSort(records, KeyFn(o), o.descending)
  }

  // ---------------------------------------------------------------------------
  // The key order

  lemma KeyLessIrreflexive(a: Key)
    ensures !KeyLess(a, a)
  {
    if a.StrKey? {
      StrLessIrreflexive(a.s);
    }
  }

  lemma KeyLessTransitive(a: Key, b: Key, c: Key)
    requires KeyLess(a, b) && KeyLess(b, c)
    ensures KeyLess(a, c)
  {
    if a.StrKey? && b.StrKey? && c.StrKey? {
      StrLessTransitive(a.s, b.s, c.s);
    }
  }

  lemma KeyLessTotal(a: Key, b: Key)
    ensures a == b || KeyLess(a, b) || KeyLess(b, a)
  {
    if a.StrKey? && b.StrKey? {
      StrLessTotal(a.s, b.s);
    }
  }

  lemma PrecedesTransitive<T>(a: T, b: T, c: T, key: T -> Key, descending: bool)
    requires Precedes(a, b, key, descending) && Precedes(b, c, key, descending)
    ensures Precedes(a, c, key, descending)
  {
    if descending {
      KeyLessTransitive(key(c), key(b), key(a));
    } else {
      KeyLessTransitive(key(a), key(b), key(c));
    }
  }

  /** If `x` precedes the first row of a sorted list, it precedes every row of it. */
  lemma PrecedesAll<T>(t: seq<T>, x: T, key: T -> Key, descending: bool)
    requires t != [] && Sorted(t, key, descending) && Precedes(x, t[0], key, descending)
    ensures forall j :: 0 <= j < |t| ==> Precedes(x, t[j], key, descending)
  {
    forall j | 0 < j < |t| ensures Precedes(x, t[j], key, descending) {
      KeyLessTotal(key(t[0]), key(t[j]));
      if key(t[0]) != key(t[j]) {
        PrecedesTransitive(x, t[0], t[j], key, descending);
      }
    }
  }

  // ---------------------------------------------------------------------------
  // Insertion and the sort permute their input

  lemma {:induction false} InsertPermutes<T>(t: seq<T>, x: T, key: T -> Key, descending: bool)
    ensures multiset(Insert(t, x, key, descending)) == multiset(t) + multiset{x}
  {
    if t != [] && !Precedes(x, t[0], key, descending) {
      InsertPermutes(t[1..], x, key, descending);
      assert t == [t[0]] + t[1..];
    }
  }

  lemma {:induction false} StableSortPermutes<T>(s: seq<T>, key: T -> Key, descending: bool)
    ensures multiset(StableSort(s, key, descending)) == multiset(s)
  {
    if s != [] {
      var init := s[..|s| - 1];
      StableSortPermutes(init, key, descending);
      InsertPermutes(StableSort(init, key, descending), s[|s| - 1], key, descending);
      assert s == init + [s[|s| - 1]];
    }
  }

  // ---------------------------------------------------------------------------
  // Insertion keeps the list sorted and each equal-key run in order

  lemma SortedTail<T>(t: seq<T>, key: T -> Key, descending: bool)
    requires t != [] && Sorted(t, key, descending)
    ensures Sorted(t[1..], key, descending)
    ensures forall j :: 0 <= j < |t[1..]| ==> !Precedes(t[1..][j], t[0], key, descending)
  {
    forall i, j | 0 <= i < j < |t[1..]| ensures !Precedes(t[1..][j], t[1..][i], key, descending) {
      assert t[1..][j] == t[j + 1] && t[1..][i] == t[i + 1];
    }
  }

  /** Putting in front of a sorted list a row that no row of the list precedes keeps it sorted. */
  lemma SortedCons<T>(x: T, t: seq<T>, key: T -> Key, descending: bool)
    requires Sorted(t, key, descending)
    requires forall j :: 0 <= j < |t| ==> !Precedes(t[j], x, key, descending)
    ensures Sorted([x] + t, key, descending)
  {
    var r := [x] + t;
    forall i, j | 0 <= i < j < |r| ensures !Precedes(r[j], r[i], key, descending) {
      assert r[j] == t[j - 1];
      if i > 0 {
        assert r[i] == t[i - 1];
      }
    }
  }

  lemma {:induction false} InsertSorted<T>(t: seq<T>, x: T, key: T -> Key, descending: bool)
    requires Sorted(t, key, descending)
    ensures Sorted(Insert(t, x, key, descending), key, descending)
  {
    if t == [] {
    } else if Precedes(x, t[0], key, descending) {
      forall j | 0 <= j < |t| ensures !Precedes(t[j], x, key, descending) {
        if Precedes(t[j], x, key, descending) {
          PrecedesTransitive(t[j], x, t[0], key, descending);
          KeyLessIrreflexive(key(t[0]));
        }
      }
      SortedCons(x, t, key, descending);
    } else {
      SortedTail(t, key, descending);
      InsertSorted(t[1..], x, key, descending);
      var rest := Insert(t[1..], x, key, descending);
      InsertPermutes(t[1..], x, key, descending);
      forall j | 0 <= j < |rest| ensures !Precedes(rest[j], t[0], key, descending) {
        assert rest[j] in multiset(rest);
        if rest[j] != x {
          assert rest[j] in t[1..];
        }
      }
      SortedCons(t[0], rest, key, descending);
    }
  }

  lemma ByKeyCons<T>(x: T, t: seq<T>, k: Key, key: T -> Key)
    ensures ByKey([x] + t, k, key) == (if key(x) == k then [x] else []) + ByKey(t, k, key)
  {
    assert ([x] + t)[0] == x && ([x] + t)[1..] == t;
  }

  lemma {:induction false} ByKeyNone<T>(t: seq<T>, k: Key, key: T -> Key)
    requires forall j :: 0 <= j < |t| ==> key(t[j]) != k
    ensures ByKey(t, k, key) == []
  {
    if t != [] {
      ByKeyNone(t[1..], k, key);
    }
  }

  lemma {:induction false} ByKeyAppend<T>(a: seq<T>, b: seq<T>, k: Key, key: T -> Key)
    ensures ByKey(a + b, k, key) == ByKey(a, k, key) + ByKey(b, k, key)
  {
    if a == [] {
      assert a + b == b;
    } else {
      ByKeyAppend(a[1..], b, k, key);
      assert a + b == [a[0]] + (a[1..] + b);
      assert a == [a[0]] + a[1..];
      ByKeyCons(a[0], a[1..] + b, k, key);
      ByKeyCons(a[0], a[1..], k, key);
    }
  }

  /** Inserting `x` appends it to the run of its own key and leaves the other runs alone. */
  lemma {:induction false} InsertByKey<T>(t: seq<T>, x: T, key: T -> Key, descending: bool, k: Key)
    requires Sorted(t, key, descending)
    ensures ByKey(Insert(t, x, key, descending), k, key) == ByKey(t, k, key) + (if key(x) == k then [x] else [])
  {
    if t == [] {
      ByKeyCons(x, [], k, key);
    } else if Precedes(x, t[0], key, descending) {
      ByKeyCons(x, t, k, key);
      if key(x) == k {
        PrecedesAll(t, x, key, descending);
        forall j | 0 <= j < |t| ensures key(t[j]) != k {
          KeyLessIrreflexive(k);
        }
        ByKeyNone(t, k, key);
      }
    } else {
      SortedTail(t, key, descending);
      InsertByKey(t[1..], x, key, descending, k);
      ByKeyCons(t[0], Insert(t[1..], x, key, descending), k, key);
      assert t == [t[0]] + t[1..];
      ByKeyCons(t[0], t[1..], k, key);
    }
  }

  // ---------------------------------------------------------------------------
  // The sort

  lemma {:induction false} StableSortSorted<T>(s: seq<T>, key: T -> Key, descending: bool)
    ensures Sorted(StableSort(s, key, descending), key, descending)
  {
    if s != [] {
      var init := s[..|s| - 1];
      StableSortSorted(init, key, descending);
      InsertSorted(StableSort(init, key, descending), s[|s| - 1], key, descending);
    }
  }

  lemma {:induction false} StableSortByKey<T>(s: seq<T>, key: T -> Key, descending: bool, k: Key)
    ensures ByKey(StableSort(s, key, descending), k, key) == ByKey(s, k, key)
  {
    if s != [] {
      var init, x := s[..|s| - 1], s[|s| - 1];
      assert s == init + [x];
      StableSortByKey(init, key, descending, k);
      StableSortSorted(init, key, descending);
      InsertByKey(StableSort(init, key, descending), x, key, descending, k);
      ByKeyAppend(init, [x], k, key);
      ByKeyCons(x, [], k, key);
    }
  }

  /** `sorted()` returns the rows ordered by key in the requested direction, with every
      run of equal keys in its original order (a stable sort). */
  lemma StableSortCorrect<T>(s: seq<T>, key: T -> Key, descending: bool)
    ensures multiset(StableSort(s, key, descending)) == multiset(s)
    ensures Sorted(StableSort(s, key, descending), key, descending)
    ensures forall k :: ByKey(StableSort(s, key, descending), k, key) == ByKey(s, k, key)
  {
    StableSortPermutes(s, key, descending);
    StableSortSorted(s, key, descending);
    forall k ensures ByKey(StableSort(s, key, descending), k, key) == ByKey(s, k, key) {
      StableSortByKey(s, key, descending, k);
    }
  }

  /** `apply_sorting` with a field returns a permutation of its input whose keys are
      non-increasing when the direction lowercased is "descending" and non-decreasing
      otherwise, rows with equal keys keeping their relative order. */
  lemma ApplySortingCorrect(records: seq<Record>, sortBy: string, sortDirection: string)
    requires sortBy != ""
    ensures var out := ApplySorting(records, sortBy, sortDirection);
            var o := OrderingFor(records, sortBy, sortDirection);
            && multiset(out) == multiset(records)
            && (o.descending <==> Lower(sortDirection) == "descending")
            && (o.descending ==> forall i, j :: 0 <= i < j < |out| ==> !KeyLess(SortKey(out[i], o), SortKey(out[j], o)))
            && (!o.descending ==> forall i, j :: 0 <= i < j < |out| ==> !KeyLess(SortKey(out[j], o), SortKey(out[i], o)))
            && (forall k :: ByKey(out, k, KeyFn(o)) == ByKey(records, k, KeyFn(o)))
  {
    var o := OrderingFor(records, sortBy, sortDirection);
    StableSortCorrect(records, KeyFn(o), o.descending);
  }

  /** No field, no sort: the list comes back as it was. */
  lemma ApplySortingWithoutField(records: seq<Record>, sortDirection: string)
    ensures ApplySorting(records, "", sortDirection) == records
  {
  }

  /** Lane and Speed always hold integers, so sorting by them always uses integer keys. */
  lemma IntegerColumnsSortNumerically(records: seq<Record>, sortDirection: string, r: Record)
    ensures OrderingFor(records, "Speed", sortDirection).numeric
    ensures SortKey(r, OrderingFor(records, "Speed", sortDirection)) == IntKey(r.speed)
    ensures OrderingFor(records, "Lane", sortDirection).numeric
    ensures SortKey(r, OrderingFor(records, "Lane", sortDirection)) == IntKey(r.lane)
  {
  }

  /** Sorting is case-insensitive about "descending"; any other word sorts ascending. */
  lemma DirectionWords(records: seq<Record>, sortBy: string)
    ensures OrderingFor(records, sortBy, "descending").descending
    ensures OrderingFor(records, sortBy, "Descending").descending
    ensures !OrderingFor(records, sortBy, "ascending").descending
    ensures !OrderingFor(records, sortBy, "Ascending").descending
  {
    LowerDescending("descending");
    LowerCapitalisedDescending("Descending", "descending");
  }

  /** "descending" is already in lower case. (The word is a parameter so that the solver
      does not evaluate `Lower` on the literal.) */
  lemma LowerDescending(s: string)
    requires s == "descending"
    ensures Lower(s) == s
  {
    LowerOfNoCapitals(s);
  }

  /** "Descending" lowers to "descending". */
  lemma LowerCapitalisedDescending(s: string, t: string)
    requires s == "Descending" && t == "descending"
    ensures Lower(s) == t
  {
    assert s == ['D'] + t[1..];
    LowerOfCapitalised('D', t[1..]);
  }

  lemma {:induction false} ByKeyAll<T>(s: seq<T>, k: Key, key: T -> Key)
    requires forall j :: 0 <= j < |s| ==> key(s[j]) == k
    ensures ByKey(s, k, key) == s
  {
    if s != [] {
      ByKeyAll(s[1..], k, key);
    }
  }

  /** Sorting by a field the rows do not have reads every key as 0, and the stable sort
      then leaves the list unchanged. */
  lemma SortByMissingFieldIsIdentity(records: seq<Record>, sortBy: string, sortDirection: string)
    requires sortBy != "" && !IsColumn(sortBy)
    ensures ApplySorting(records, sortBy, sortDirection) == records
  {
    var o := OrderingFor(records, sortBy, sortDirection);
    var out := StableSort(records, KeyFn(o), o.descending);
    StableSortCorrect(records, KeyFn(o), o.descending);
    forall r ensures KeyFn(o)(r) == IntKey(0) {
    }
    ByKeyAll(records, IntKey(0), KeyFn(o));
    forall j | 0 <= j < |out| ensures KeyFn(o)(out[j]) == IntKey(0) {
    }
    ByKeyAll(out, IntKey(0), KeyFn(o));
  }
}
