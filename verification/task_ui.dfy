/** The pure parts of the `TaskUI` class of the task-manager starter: the
    status and search filter, the sort comparators, the search state, the
    select-all checkbox, bulk deletion and completion counting, and the
    priority labels.

    The bulk actions call the task manager with string ids read from the
    page. `getTask` and `toggleTask` are not methods of the `TaskManager`
    class, and its `deleteTask` compares ids with `!==` and returns a
    boolean rather than an object with `success`; so the bulk actions are
    modelled against the manager they evidently expect: the map `Flags` from
    id to `completed`, where `deleteTask` succeeds exactly for a present id
    and removes it, and `toggleTask` flips the flag of a present id. Dates
    are millisecond instants. */
module TaskUi {
  import opened Options
  import opened Seqs
  import opened Strings
  import Json

  /** A task as the page reads it. `description` and `category` are `None`
      when they hold something other than a string (an imported task may
      lack them), which has no `toLowerCase`. */
  datatype UiTask = UiTask(
    title: string,
    description: Option<string>,
    category: Option<string>,
    priority: string,
    completed: bool,
    dueDate: Option<int>,
    createdAt: int)

  datatype UiState = UiState(currentFilter: string, currentSort: string,
                             searchQuery: string, isSearchActive: bool)

  /** The constructor's initial state (`searchQuery` starts out unset). */
  const InitialState: UiState := UiState("all", "date", "", false)

  // --------------------------------------------------------------- search

  /** `handleSearch`: store the trimmed query; search is active exactly when
      it is non-empty. */
  function HandleSearch(s: UiState, query: string): (r: UiState)
    ensures r.searchQuery == Trim(query)
    ensures r.isSearchActive <==> Trim(query) != ""
    ensures r.currentFilter == s.currentFilter && r.currentSort == s.currentSort
  {
    s.(searchQuery := Trim(query), isSearchActive := |Trim(query)| > 0)
  }

  /** `clearSearch`. */
  function ClearSearch(s: UiState): (r: UiState)
    ensures r.searchQuery == "" && !r.isSearchActive
    ensures r.currentFilter == s.currentFilter && r.currentSort == s.currentSort
  {
    s.(searchQuery := "", isSearchActive := false)
  }

  /** A blank query leaves the same state as clearing the search. */
  lemma BlankSearchIsClear(s: UiState, query: string)
    requires AllSpace(query)
    ensures HandleSearch(s, query) == ClearSearch(s)
  {
    TrimEmptyIffBlank(query);
  }

  // ------------------------------------------------------------- filtering

  /** The status part of `applyCurrentFilters`. */
  predicate StatusMatch(filter: string, now: int, t: UiTask) {
    if filter == "completed" then t.completed
    else if filter == "pending" then !t.completed
    else if filter == "overdue" then !t.completed && t.dueDate.Some? && t.dueDate.value < now
    else true
  }

  /** The search part: the lower-cased query occurs in the lower-cased
      title, description or category. */
  predicate SearchMatch(query: string, t: UiTask) {
    var q := Lower(query);
    || Contains(Lower(t.title), q)
    || (t.description.Some? && Contains(Lower(t.description.value), q))
    || (t.category.Some? && Contains(Lower(t.category.value), q))
  }

  /** The search test raises a `TypeError`: the `||` reaches a description
      or category that is not a string. */
  predicate SearchThrows(query: string, t: UiTask) {
    var q := Lower(query);
    && !Contains(Lower(t.title), q)
    && (t.description.None? || (!Contains(Lower(t.description.value), q) && t.category.None?))
  }

  /** Whether the search stage runs at all. */
  predicate SearchApplies(s: UiState) {
    s.isSearchActive && s.searchQuery != ""
  }

  predicate Shown(s: UiState, now: int, t: UiTask) {
    StatusMatch(s.currentFilter, now, t) && (SearchApplies(s) ==> SearchMatch(s.searchQuery, t))
  }

  function StatusTest(filter: string, now: int): UiTask -> bool {
    (t: UiTask) => StatusMatch(filter, now, t)
  }

  function SearchTest(query: string): UiTask -> bool {
    (t: UiTask) => SearchMatch(query, t)
  }

  function ShownTest(s: UiState, now: int): UiTask -> bool {
    (t: UiTask) => Shown(s, now, t)
  }

  /** A task reaching the search stage makes it throw. */
  predicate FilterThrows(s: UiState, now: int, tasks: seq<UiTask>) {
    SearchApplies(s) && exists t :: t in tasks && StatusMatch(s.currentFilter, now, t) && SearchThrows(s.searchQuery, t)
  }

  /** `applyCurrentFilters`: the status filter, then the search filter when
      it applies; `None` for the `TypeError` the search raises on a task
      whose description or category is not a string. */
  function ApplyCurrentFilters(s: UiState, tasks: seq<UiTask>, now: int): (r: Option<seq<UiTask>>)
    ensures r.None? <==> FilterThrows(s, now, tasks)
    ensures r.Some? ==> r.value == Select(tasks, ShownTest(s, now))
    ensures r.Some? ==> forall t :: t in r.value <==> t in tasks && Shown(s, now, t)
    ensures r.Some? ==> IsSubseq(r.value, tasks)
  {
    var byStatus := Select(tasks, StatusTest(s.currentFilter, now));
    SelectIsSubseq(tasks, ShownTest(s, now));
    if SearchApplies(s) then
      if exists t :: t in byStatus && SearchThrows(s.searchQuery, t) then None
      else
        SelectSelect(tasks, StatusTest(s.currentFilter, now), SearchTest(s.searchQuery), ShownTest(s, now));
        Some(Select(byStatus, SearchTest(s.searchQuery)))
    else
      SelectExt(tasks, StatusTest(s.currentFilter, now), ShownTest(s, now));
      Some(byStatus)
  }

  /** Tasks whose description and category are strings never make the
      filter throw. */
  lemma StringFieldsNeverThrow(s: UiState, tasks: seq<UiTask>, now: int)
    requires forall t :: t in tasks ==> t.description.Some? && t.category.Some?
    ensures ApplyCurrentFilters(s, tasks, now).Some?
  {
  }

  /** With search cleared and the `'all'` filter every task is shown. */
  lemma AllFilterShowsEverything(s: UiState, tasks: seq<UiTask>, now: int)
    requires s.currentFilter == "all" && !s.isSearchActive
    ensures ApplyCurrentFilters(s, tasks, now) == Some(tasks)
  {
    SelectAll(tasks, ShownTest(s, now));
  }

  /** `'completed'` and `'pending'` split the tasks between them. */
  lemma CompletedPendingPartition(s: UiState, tasks: seq<UiTask>, now: int)
    requires !SearchApplies(s)
    ensures |ApplyCurrentFilters(s.(currentFilter := "completed"), tasks, now).value|
          + |ApplyCurrentFilters(s.(currentFilter := "pending"), tasks, now).value| == |tasks|
  {
    CountSplit(tasks, ShownTest(s.(currentFilter := "completed"), now), ShownTest(s.(currentFilter := "pending"), now));
  }

  // --------------------------------------------------------------- sorting

  /** `{alta: 3, media: 2, bassa: 1}[p]`; `None` for `undefined`. */
  function PriorityRank(p: string): (r: Option<int>)
    ensures r.Some? <==> p == "alta" || p == "media" || p == "bassa"
  {
    if p == "alta" then Some(3) else if p == "media" then Some(2) else if p == "bassa" then Some(1) else None
  }

  /** The `'priority'` comparator. An unknown priority makes the difference
      `NaN`, which `Array.prototype.sort` reads as "equal". */
  function ComparePriority(a: UiTask, b: UiTask): (c: int)
    ensures PriorityRank(a.priority).None? || PriorityRank(b.priority).None? ==> c == 0
    ensures a.priority == "alta" && b.priority == "media" ==> c < 0
    ensures a.priority == "media" && b.priority == "bassa" ==> c < 0
    ensures a.priority == "alta" && b.priority == "bassa" ==> c < 0
  {
    match (PriorityRank(a.priority), PriorityRank(b.priority))
    case (Some(x), Some(y)) => y - x
    case _ => 0
  }

  /** Unknown priorities make the priority order inconsistent: each of
      `alta` and `bassa` ties with an unknown value while `alta` comes first. */
  lemma PriorityCompareNotTransitive(a: UiTask)
    requires a.priority == "alta"
    ensures var u := a.(priority := "");
      var b := a.(priority := "bassa");
      ComparePriority(a, u) == 0 && ComparePriority(u, b) == 0 && ComparePriority(a, b) < 0
  {
  }

  /** The `'dueDate'` comparator: dated tasks before undated ones, two
      undated tasks equal, dated tasks by ascending date. */
  function CompareDueDate(a: UiTask, b: UiTask): (c: int)
    ensures a.dueDate.None? && b.dueDate.None? ==> c == 0
    ensures a.dueDate.None? && b.dueDate.Some? ==> c > 0
    ensures a.dueDate.Some? && b.dueDate.None? ==> c < 0
    ensures a.dueDate.Some? && b.dueDate.Some? ==> (c < 0 <==> a.dueDate.value < b.dueDate.value)
  {
    if a.dueDate.None? && b.dueDate.None? then 0
    else if a.dueDate.None? then 1
    else if b.dueDate.None? then -1
    else a.dueDate.value - b.dueDate.value
  }

  /** The default (`'date'`) comparator: newest `createdAt` first. */
  function CompareCreated(a: UiTask, b: UiTask): (c: int)
    ensures c < 0 <==> a.createdAt > b.createdAt
    ensures c == 0 <==> a.createdAt == b.createdAt
  {
    b.createdAt - a.createdAt
  }

  /** A comparator that orders consistently: every element ties with itself,
      swapping the arguments flips the sign, and "not after" is transitive. */
  ghost predicate TotalPreorder(cmp: (UiTask, UiTask) -> int) {
    && (forall a, b :: cmp(a, b) <= 0 || cmp(b, a) <= 0)
    && (forall a, b :: cmp(a, b) < 0 <==> cmp(b, a) > 0)
    && (forall a, b, c :: cmp(a, b) <= 0 && cmp(b, c) <= 0 ==> cmp(a, c) <= 0)
  }

  lemma DueDateIsPreorder()
    ensures TotalPreorder(CompareDueDate)
  {
  }

  lemma CreatedIsPreorder()
    ensures TotalPreorder(CompareCreated)
  {
  }

  /** Every pair of positions is in comparator order. */
  ghost predicate SortedBy(s: seq<UiTask>, cmp: (UiTask, UiTask) -> int) {
    forall i, j :: 0 <= i < j < |s| ==> cmp(s[i], s[j]) <= 0
  }

  /** `x` placed before the first element it does not sort strictly after.
      Since `x` came before every element of `s` in the input, it stays ahead
      of the elements it ties with. */
  function Insert(x: UiTask, s: seq<UiTask>, cmp: (UiTask, UiTask) -> int): (r: seq<UiTask>)
    ensures multiset(r) == multiset(s) + multiset{x}
    ensures |r| == |s| + 1
    decreases |s|
  {
    if s == [] then [x]
    else if cmp(x, s[0]) <= 0 then [x] + s
    else
      assert s == [s[0]] + s[1..];
      [s[0]] + Insert(x, s[1..], cmp)
  }

  /** A sorted tail behind a head that sorts before all of it is sorted. */
  lemma SortedCons(h: UiTask, t: seq<UiTask>, cmp: (UiTask, UiTask) -> int)
    requires SortedBy(t, cmp)
    requires forall k :: 0 <= k < |t| ==> cmp(h, t[k]) <= 0
    ensures SortedBy([h] + t, cmp)
  {
    var r := [h] + t;
    forall i, j | 0 <= i < j < |r|
      ensures cmp(r[i], r[j]) <= 0
    {
      if i > 0 {
        assert r[i] == t[i - 1] && r[j] == t[j - 1];
      } else {
        assert r[j] == t[j - 1];
      }
    }
  }

  /** A task sorting before `x` and before all of `t` sorts before all of
      `t` with `x` inserted. */
  lemma {:induction false} InsertBelow(h: UiTask, x: UiTask, t: seq<UiTask>, cmp: (UiTask, UiTask) -> int)
    requires cmp(h, x) <= 0
    requires forall k :: 0 <= k < |t| ==> cmp(h, t[k]) <= 0
    ensures forall k :: 0 <= k < |Insert(x, t, cmp)| ==> cmp(h, Insert(x, t, cmp)[k]) <= 0
    decreases |t|
  {
    if t != [] && cmp(x, t[0]) > 0 {
      var u := t[1..];
      forall k | 0 <= k < |u|
        ensures cmp(h, u[k]) <= 0
      {
        assert u[k] == t[k + 1];
      }
      InsertBelow(h, x, u, cmp);
      var r := Insert(x, t, cmp);
      forall k | 0 <= k < |r|
        ensures cmp(h, r[k]) <= 0
      {
        if k > 0 {
          assert r[k] == Insert(x, u, cmp)[k - 1];
        }
      }
    } else if t != [] {
      var r := Insert(x, t, cmp);
      forall k | 0 <= k < |r|
        ensures cmp(h, r[k]) <= 0
      {
        if k > 0 {
          assert r[k] == t[k - 1];
        }
      }
    }
  }

  /** The tail of a sorted sequence is sorted. */
  lemma SortedTail(s: seq<UiTask>, cmp: (UiTask, UiTask) -> int)
    requires s != [] && SortedBy(s, cmp)
    ensures SortedBy(s[1..], cmp)
    ensures forall k :: 0 <= k < |s[1..]| ==> cmp(s[0], s[1..][k]) <= 0
  {
    var t := s[1..];
    forall i, j | 0 <= i < j < |t|
      ensures cmp(t[i], t[j]) <= 0
    {
      assert t[i] == s[i + 1] && t[j] == s[j + 1];
    }
    forall k | 0 <= k < |t|
      ensures cmp(s[0], t[k]) <= 0
    {
      assert t[k] == s[k + 1];
    }
  }

  lemma {:induction false} InsertSorted(x: UiTask, s: seq<UiTask>, cmp: (UiTask, UiTask) -> int)
    requires TotalPreorder(cmp)
    requires SortedBy(s, cmp)
    ensures SortedBy(Insert(x, s, cmp), cmp)
    decreases |s|
  {
    if s == [] {
    } else if cmp(x, s[0]) > 0 {
      var t := s[1..];
      SortedTail(s, cmp);
      InsertSorted(x, t, cmp);
      assert cmp(s[0], x) < 0;
      InsertBelow(s[0], x, t, cmp);
      SortedCons(s[0], Insert(x, t, cmp), cmp);
    } else {
      forall k | 0 <= k < |s|
        ensures cmp(x, s[k]) <= 0
      {
        if k > 0 {
          assert cmp(s[0], s[k]) <= 0;
        }
      }
      SortedCons(x, s, cmp);
    }
  }

  /** `[...tasks].sort(cmp)`: `Array.prototype.sort` is stable, so this is
      an insertion sort that keeps tied elements in input order. */
  function SortBy(s: seq<UiTask>, cmp: (UiTask, UiTask) -> int): (r: seq<UiTask>)
    ensures multiset(r) == multiset(s)
    ensures |r| == |s|
    decreases |s|
  {
    if s == [] then []
    else
      assert s == [s[0]] + s[1..];
      Insert(s[0], SortBy(s[1..], cmp), cmp)
  }

  lemma {:induction false} SortBySorted(s: seq<UiTask>, cmp: (UiTask, UiTask) -> int)
    requires TotalPreorder(cmp)
    ensures SortedBy(SortBy(s, cmp), cmp)
    decreases |s|
  {
    if s != [] {
      SortBySorted(s[1..], cmp);
      InsertSorted(s[0], SortBy(s[1..], cmp), cmp);
    }
  }

  /** The tasks the comparator ranks level with `z`. */
  function Ties(cmp: (UiTask, UiTask) -> int, z: UiTask): UiTask -> bool {
    (y: UiTask) => cmp(z, y) == 0
  }

  /** Any two tasks level with `z` do not sort strictly apart. */
  ghost predicate TiesLevel(cmp: (UiTask, UiTask) -> int, z: UiTask) {
    forall a, b :: cmp(z, a) == 0 && cmp(z, b) == 0 ==> cmp(a, b) <= 0
  }

  lemma PreorderTiesLevel(cmp: (UiTask, UiTask) -> int, z: UiTask)
    requires TotalPreorder(cmp)
    ensures TiesLevel(cmp, z)
  {
    forall a, b | cmp(z, a) == 0 && cmp(z, b) == 0
      ensures cmp(a, b) <= 0
    {
      assert cmp(a, z) <= 0;
    }
  }

  /** Two optional elements of which at most one is present commute. */
  lemma SwapOptional(a: UiTask, pa: bool, b: UiTask, pb: bool, rest: seq<UiTask>)
    requires !(pa && pb)
    ensures (if pa then [a] else []) + ((if pb then [b] else []) + rest)
         == (if pb then [b] else []) + ((if pa then [a] else []) + rest)
  {
  }

  /** Inserting `x` puts it ahead of every element it ties with. */
  lemma {:induction false} InsertTies(x: UiTask, t: seq<UiTask>, cmp: (UiTask, UiTask) -> int, z: UiTask)
    requires TiesLevel(cmp, z)
    ensures Select(Insert(x, t, cmp), Ties(cmp, z))
         == (if Ties(cmp, z)(x) then [x] else []) + Select(t, Ties(cmp, z))
    decreases |t|
  {
    var p := Ties(cmp, z);
    if t == [] {
    } else if cmp(x, t[0]) <= 0 {
      SelectCons(x, t, p);
    } else {
      var u := t[1..];
      InsertTies(x, u, cmp, z);
      assert !(p(x) && p(t[0]));
      assert t == [t[0]] + u;
      calc {
        Select(Insert(x, t, cmp), p);
        { SelectCons(t[0], Insert(x, u, cmp), p); }
        (if p(t[0]) then [t[0]] else []) + Select(Insert(x, u, cmp), p);
        (if p(t[0]) then [t[0]] else []) + ((if p(x) then [x] else []) + Select(u, p));
        { SwapOptional(t[0], p(t[0]), x, p(x), Select(u, p)); }
        (if p(x) then [x] else []) + ((if p(t[0]) then [t[0]] else []) + Select(u, p));
        { SelectCons(t[0], u, p); }
        (if p(x) then [x] else []) + Select(t, p);
      }
    }
  }

  /** Stability: the tasks level with any `z` come out in input order. */
  lemma {:induction false} SortByStable(s: seq<UiTask>, cmp: (UiTask, UiTask) -> int, z: UiTask)
    requires TotalPreorder(cmp)
    ensures Select(SortBy(s, cmp), Ties(cmp, z)) == Select(s, Ties(cmp, z))
    decreases |s|
  {
    if s != [] {
      SortByStable(s[1..], cmp, z);
      PreorderTiesLevel(cmp, z);
      InsertTies(s[0], SortBy(s[1..], cmp), cmp, z);
      assert s == [s[0]] + s[1..];
      SelectCons(s[0], s[1..], Ties(cmp, z));
    }
  }

  /** An input already in comparator order is returned as it is, whatever
      the comparator. */
  lemma {:induction false} SortedUnchanged(s: seq<UiTask>, cmp: (UiTask, UiTask) -> int)
    requires SortedBy(s, cmp)
    ensures SortBy(s, cmp) == s
    decreases |s|
  {
    if s != [] {
      SortedTail(s, cmp);
      SortedUnchanged(s[1..], cmp);
      assert s == [s[0]] + s[1..];
    }
  }

  /** Insertion only consults the comparator with `x` on the left. */
  lemma {:induction false} InsertExt(x: UiTask, t: seq<UiTask>, c1: (UiTask, UiTask) -> int, c2: (UiTask, UiTask) -> int)
    requires forall y :: y in t ==> c1(x, y) == c2(x, y)
    ensures Insert(x, t, c1) == Insert(x, t, c2)
    decreases |t|
  {
    if t != [] {
      assert t[0] in t;
      assert forall y :: y in t[1..] ==> y in t;
      InsertExt(x, t[1..], c1, c2);
    }
  }

  /** Comparators that agree on the elements sort them the same way. */
  lemma {:induction false} SortByExt(s: seq<UiTask>, c1: (UiTask, UiTask) -> int, c2: (UiTask, UiTask) -> int)
    requires forall a, b :: a in s && b in s ==> c1(a, b) == c2(a, b)
    ensures SortBy(s, c1) == SortBy(s, c2)
    decreases |s|
  {
    if s != [] {
      assert forall y :: y in s[1..] ==> y in s;
      SortByExt(s[1..], c1, c2);
      var t := SortBy(s[1..], c2);
      forall y | y in t
        ensures c1(s[0], y) == c2(s[0], y)
      {
        assert y in multiset(s[1..]);
      }
      InsertExt(s[0], t, c1, c2);
    }
  }

  /** The rank `priorityOrder` gives, with `0` for an unknown priority. */
  function Rank(t: UiTask): int {
    PriorityRank(t.priority).GetOr(0)
  }

  /** Higher ranks first: a total preorder that agrees with the
      `'priority'` comparator on tasks of known priority. */
  function CompareRank(a: UiTask, b: UiTask): (c: int)
    ensures c <= 0 <==> Rank(a) >= Rank(b)
  {
    Rank(b) - Rank(a)
  }

  lemma RankIsPreorder()
    ensures TotalPreorder(CompareRank)
  {
  }

  /** Every task has one of the three priority levels. */
  predicate AllRanked(tasks: seq<UiTask>) {
    forall t :: t in tasks ==> PriorityRank(t.priority).Some?
  }

  /** No task has one of the three priority levels. */
  predicate NoneRanked(tasks: seq<UiTask>) {
    forall t :: t in tasks ==> PriorityRank(t.priority).None?
  }

  /** On tasks of known priority the `'priority'` sort is the rank sort. */
  lemma RankedPrioritySort(tasks: seq<UiTask>)
    requires AllRanked(tasks)
    ensures SortBy(tasks, ComparePriority) == SortBy(tasks, CompareRank)
  {
    SortByExt(tasks, ComparePriority, CompareRank);
  }

  /** With no known priority every comparison is `NaN`, and the stable sort
      leaves the order as it was. */
  lemma UnrankedPrioritiesKeepOrder(tasks: seq<UiTask>)
    requires NoneRanked(tasks)
    ensures SortBy(tasks, ComparePriority) == tasks
  {
    assert forall i :: 0 <= i < |tasks| ==> tasks[i] in tasks;
    SortedUnchanged(tasks, ComparePriority);
  }

  /** The comparator `applySorting` uses for the sort keys modelled here. */
  function Comparator(sort: string): (UiTask, UiTask) -> int {
    if sort == "priority" then ComparePriority
    else if sort == "dueDate" then CompareDueDate
    else CompareCreated
  }

  /** The `'dueDate'` sort: dated tasks first, in ascending date order,
      with tasks of the same date (or none) in input order. */
  lemma DueDateSortFacts(tasks: seq<UiTask>, r: seq<UiTask>)
    requires r == SortBy(tasks, CompareDueDate)
    ensures (forall i, j :: 0 <= i < j < |r| && r[j].dueDate.Some? ==> r[i].dueDate.Some?)
      && (forall i, j :: 0 <= i < j < |r| && r[j].dueDate.Some? ==> r[i].dueDate.value <= r[j].dueDate.value)
      && (forall z :: Select(r, Ties(CompareDueDate, z)) == Select(tasks, Ties(CompareDueDate, z)))
  {
    DueDateIsPreorder();
    SortBySorted(tasks, CompareDueDate);
    forall z {
      SortByStable(tasks, CompareDueDate, z);
    }
  }

  /** The default sort: newest first, tasks created at the same instant in
      input order. */
  lemma CreatedSortFacts(tasks: seq<UiTask>, r: seq<UiTask>)
    requires r == SortBy(tasks, CompareCreated)
    ensures (forall i, j :: 0 <= i < j < |r| ==> r[i].createdAt >= r[j].createdAt)
      && (forall z :: Select(r, Ties(CompareCreated, z)) == Select(tasks, Ties(CompareCreated, z)))
  {
    CreatedIsPreorder();
    SortBySorted(tasks, CompareCreated);
    forall z {
      SortByStable(tasks, CompareCreated, z);
    }
  }

  /** The `'priority'` sort on tasks of known priority: highest first, equal
      priorities in input order. */
  lemma RankedSortFacts(tasks: seq<UiTask>, r: seq<UiTask>)
    requires AllRanked(tasks) && r == SortBy(tasks, ComparePriority)
    ensures (forall i, j :: 0 <= i < j < |r| ==> Rank(r[i]) >= Rank(r[j]))
      && (forall z :: Select(r, Ties(CompareRank, z)) == Select(tasks, Ties(CompareRank, z)))
  {
    RankedPrioritySort(tasks);
    RankIsPreorder();
    SortBySorted(tasks, CompareRank);
    forall z {
      SortByStable(tasks, CompareRank, z);
    }
  }

  /** `applySorting` for the `'priority'`, `'dueDate'` and default keys: a
      permutation of the input. For `'dueDate'`, dated tasks come first in
      ascending date order and tasks with the same date (or none) keep their
      order; for the default key, the newest task comes first and tasks
      created at the same instant keep their order; for `'priority'`, tasks
      of known priority come out highest first with equal priorities in
      input order, and tasks of no known priority are left as they are. */
  function ApplySorting(s: UiState, tasks: seq<UiTask>): (r: seq<UiTask>)
    requires s.currentSort != "title" && s.currentSort != "category"
    ensures multiset(r) == multiset(tasks)
    ensures s.currentSort == "dueDate" ==>
      && (forall i, j :: 0 <= i < j < |r| && r[j].dueDate.Some? ==> r[i].dueDate.Some?)
      && (forall i, j :: 0 <= i < j < |r| && r[j].dueDate.Some? ==> r[i].dueDate.value <= r[j].dueDate.value)
      && (forall z :: Select(r, Ties(CompareDueDate, z)) == Select(tasks, Ties(CompareDueDate, z)))
    ensures s.currentSort != "dueDate" && s.currentSort != "priority" ==>
      && (forall i, j :: 0 <= i < j < |r| ==> r[i].createdAt >= r[j].createdAt)
      && (forall z :: Select(r, Ties(CompareCreated, z)) == Select(tasks, Ties(CompareCreated, z)))
    ensures s.currentSort == "priority" && AllRanked(tasks) ==>
      && (forall i, j :: 0 <= i < j < |r| ==> Rank(r[i]) >= Rank(r[j]))
      && (forall z :: Select(r, Ties(CompareRank, z)) == Select(tasks, Ties(CompareRank, z)))
    ensures s.currentSort == "priority" && NoneRanked(tasks) ==> r == tasks
  {
    var r := SortBy(tasks, Comparator(s.currentSort));
    if s.currentSort == "dueDate" then
      DueDateSortFacts(tasks, r);
      r
    else if s.currentSort != "priority" then
      CreatedSortFacts(tasks, r);
      r
    else if AllRanked(tasks) then
      RankedSortFacts(tasks, r);
      r
    else if NoneRanked(tasks) then
      UnrankedPrioritiesKeepOrder(tasks);
      r
    else r
  }

  // ------------------------------------------------------------ selection

  datatype SelectAllBox = SelectAllBox(indeterminate: bool, checked: bool, bulkVisible: bool)

  /** `updateBulkActions` for `selected` checked boxes out of `all`. */
  function UpdateBulkActions(selected: nat, all: nat): (r: SelectAllBox)
    requires selected <= all
    ensures r.indeterminate <==> 0 < selected < all
    ensures r.checked <==> selected == all && all > 0
    ensures !(r.indeterminate && r.checked)
    ensures !r.indeterminate && !r.checked <==> selected == 0
    ensures r.bulkVisible <==> selected > 0
  {
    SelectAllBox(selected > 0 && selected < all, selected == all && all > 0, selected > 0)
  }

  // ------------------------------------------------------------------ bulk

  /** The test suite's task store: id to `completed`. */
  type Flags = map<string, bool>

  /** The distinct values of a sequence. */
  function Elems(s: seq<string>): (r: set<string>)
    ensures forall x :: x in r <==> x in s
  {
    set x | x in s
  }

  /** The store and the two counters once the ids of `ids` have been
      handled in order. */
  function BulkDeleteState(store: Flags, ids: seq<string>): (Flags, nat, nat)
    decreases |ids|
  {
    if ids == [] then (store, 0, 0)
    else
      var (after, deleted, errors) := BulkDeleteState(store, ids[..|ids| - 1]);
      var id := ids[|ids| - 1];
      if id in after then (after - {id}, deleted + 1, errors) else (after, deleted, errors + 1)
  }

  /** `executeBulkDelete`: one `deleteTask` per id, in order; a call
      succeeds exactly when the id is still present. Every id counts as
      either a deletion or an error, and the deletions are the distinct
      selected ids that existed. */
  method ExecuteBulkDelete(store: Flags, ids: seq<string>) returns (after: Flags, deleted: nat, errors: nat)
    ensures deleted + errors == |ids|
    ensures after.Keys == store.Keys - Elems(ids)
    ensures forall k :: k in after ==> after[k] == store[k]
    ensures deleted == |store.Keys * Elems(ids)|
  {
    after := store;
    deleted := 0;
    errors := 0;
    var n := 0;
    while n < |ids|
      invariant 0 <= n <= |ids|
      invariant (after, deleted, errors) == BulkDeleteState(store, ids[..n])
    {
      assert ids[..n + 1][..n] == ids[..n];
      var id := ids[n];
      if id in after {
        after := after - {id};
        deleted := deleted + 1;
      } else {
        errors := errors + 1;
      }
      n := n + 1;
    }
    assert ids[..n] == ids;
    BulkDeleteMeaning(store, ids);
  }

  /** What the state after the loop means: each id counts once as a
      deletion or an error, exactly the selected ids are gone, the rest
      keep their flags, and the deletions are the selected ids that
      existed. */
  lemma {:induction false} BulkDeleteMeaning(store: Flags, ids: seq<string>)
    ensures BulkDeleteState(store, ids).1 + BulkDeleteState(store, ids).2 == |ids|
    ensures BulkDeleteState(store, ids).0.Keys == store.Keys - Elems(ids)
    ensures forall k :: k in BulkDeleteState(store, ids).0 ==> BulkDeleteState(store, ids).0[k] == store[k]
    ensures BulkDeleteState(store, ids).1 == |store.Keys * Elems(ids)|
    decreases |ids|
  {
    if ids != [] {
      var n := |ids| - 1;
      BulkDeleteMeaning(store, ids[..n]);
      ElemsStep(ids, n);
      assert ids[..n + 1] == ids;
      var (after, deleted, errors) := BulkDeleteState(store, ids[..n]);
      var seen := Elems(ids[..n]);
      if ids[n] in after {
        DeleteStep(store, after, seen, ids[n]);
      } else {
        MissingStep(store, after, seen, ids[n]);
      }
    }
  }

  /** A present id is deleted: one more existing id is gone. */
  lemma DeleteStep(store: Flags, after: Flags, seen: set<string>, id: string)
    requires after.Keys == store.Keys - seen && id in after
    ensures (after - {id}).Keys == store.Keys - (seen + {id})
    ensures |store.Keys * (seen + {id})| == |store.Keys * seen| + 1
  {
    IntersectGrows(store.Keys, seen, id);
  }

  /** A missing id was never there or is already gone. */
  lemma MissingStep(store: Flags, after: Flags, seen: set<string>, id: string)
    requires after.Keys == store.Keys - seen && id !in after
    ensures after.Keys == store.Keys - (seen + {id})
    ensures store.Keys * (seen + {id}) == store.Keys * seen
  {
  }

  lemma ElemsStep(ids: seq<string>, n: nat)
    requires n < |ids|
    ensures Elems(ids[..n + 1]) == Elems(ids[..n]) + {ids[n]}
  {
    assert ids[..n + 1] == ids[..n] + [ids[n]];
  }

  lemma IntersectGrows(keys: set<string>, seen: set<string>, x: string)
    requires x in keys && x !in seen
    ensures |keys * (seen + {x})| == |keys * seen| + 1
  {
    assert keys * (seen + {x}) == (keys * seen) + {x};
  }

  /** `handleBulkComplete`: every selected, present, uncompleted task is
      toggled once, so it ends up completed; nothing is ever un-completed
      and the count is the number of such tasks. */
  method HandleBulkComplete(store: Flags, ids: seq<string>) returns (after: Flags, completedCount: nat, errors: nat)
    ensures after.Keys == store.Keys
    ensures forall k :: k in store ==> after[k] == (store[k] || k in ids)
    ensures forall k :: k in store && store[k] ==> after[k]
    ensures errors == 0
    ensures completedCount == |set k | k in store && !store[k] && k in ids|
  {
    after := store;
    completedCount := 0;
    errors := 0;
    if |ids| == 0 {
      assert (set k | k in store && !store[k] && k in ids) == {};
      return;
    }
    var n := 0;
    while n < |ids|
      invariant 0 <= n <= |ids|
      invariant after.Keys == store.Keys
      invariant forall k :: k in store ==> after[k] == (store[k] || k in ids[..n])
      invariant completedCount == |set k | k in store && !store[k] && k in ids[..n]|
      invariant errors == 0
    {
      var id := ids[n];
      var before := set k | k in store && !store[k] && k in ids[..n];
      var next := set k | k in store && !store[k] && k in ids[..n + 1];
      assert ids[..n + 1] == ids[..n] + [id];
      if id in after && !after[id] {
        assert next == before + {id};
        after := after[id := true];
        completedCount := completedCount + 1;
      } else {
        assert next == before;
      }
      n := n + 1;
    }
    assert ids[..n] == ids;
  }

  // --------------------------------------------------------------- labels

  /** `getPriorityLabel`: the three Italian levels are capitalised, a name
      the `labels` literal inherits gives that inherited member, which is not
      a string (`None`), and anything else is returned as given. */
  function GetPriorityLabel(p: string): (r: Option<string>)
    ensures r.None? <==> p in Json.InheritedKeys
    ensures p == "alta" ==> r == Some("Alta")
    ensures p == "media" ==> r == Some("Media")
    ensures p == "bassa" ==> r == Some("Bassa")
    ensures PriorityRank(p).None? && p !in Json.InheritedKeys ==> r == Some(p)
    ensures r.Some? ==> |r.value| == |p|
  {
    if p == "alta" then Some("Alta")
    else if p == "media" then Some("Media")
    else if p == "bassa" then Some("Bassa")
    else if p in Json.InheritedKeys then None
    else Some(p)
  }
}
