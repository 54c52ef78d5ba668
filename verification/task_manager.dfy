/** The `TaskManager` class of the task-manager starter: an in-memory task
    collection with sequential ids, validation, filtering, statistics, bulk
    operations and JSON import/export.

    The collection is the value `Manager(tasks, nextId, saved)`. The storage
    behind `this.saveTasks()` is abstract: `saved` is the log of every
    collection handed to it, newest last, so "saves once" reads as "the log
    grew by one entry holding the new collection". Timestamps and today's
    date are parameters (`now`, `today`); due dates are day numbers, which
    order as the ISO `YYYY-MM-DD` strings of the source do. */
module TaskManager {
  import opened Options
  import opened Seqs
  import opened Strings
  import opened Json

  // ---------------------------------------------------------------- data

  /** The fields of a task object the source names. */
  const TaskKeys: set<string> := {
    "id", "title", "description", "priority", "category", "completed",
    "createdAt", "updatedAt", "dueDate", "completedAt"}

  /** The other own fields a task object may carry: an imported entry keeps
      whatever its file held (`{ ...taskData, id }`). */
  type Extra = m: map<string, Json> | forall k :: k in m ==> k !in TaskKeys
    witness map[]

  /** A task object. `description` and `category` are `None` when the field
      is absent or holds something other than a string, since the source
      then reads `undefined` or a value without string methods. */
  datatype Task = Task(
    id: int,
    title: string,
    description: Option<string>,
    priority: string,
    category: Option<string>,
    completed: bool,
    createdAt: int,
    updatedAt: int,
    dueDate: Option<int>,
    completedAt: Option<int>,
    extra: Extra)

  datatype Manager = Manager(tasks: seq<Task>, nextId: int, saved: seq<seq<Task>>)

  /** The errors `TaskManager` throws, by message. */
  datatype TaskError =
    | TitleRequired    // 'Task title is required'
    | TitleEmpty       // 'Task title cannot be empty'
    | InvalidPriority  // 'Invalid priority level'
    | ImportFailed     // 'Failed to import tasks: ...'
    | TypeError        // raised by the runtime: a string method or `push` on another value

  datatype Result<T> = Ok(value: T) | Err(error: TaskError)

  /** The three priority levels `createTask` and `updateTask` accept. */
  predicate ValidPriority(p: string) {
    p == "low" || p == "medium" || p == "high"
  }

  /** `completed` and `completedAt` agree: a completion time is recorded
      exactly for completed tasks. */
  predicate CompletionConsistent(t: Task) {
    t.completed <==> t.completedAt.Some?
  }

  /** The fields `validateTaskData` checks, read on a typed task. */
  predicate ValidTask(t: Task) {
    Trim(t.title) != "" && ValidPriority(t.priority)
  }

  // ------------------------------------------------------------ id freshness

  /** Every id in `tasks` is below `bound`. */
  ghost predicate IdsBelow(tasks: seq<Task>, bound: int) {
    forall t :: t in tasks ==> t.id < bound
  }

  /** The next id to hand out exceeds every id present. */
  ghost predicate Fresh(m: Manager) {
    IdsBelow(m.tasks, m.nextId)
  }

  /** No two tasks share an id. */
  ghost predicate UniqueIds(tasks: seq<Task>) {
    forall i, j :: 0 <= i < j < |tasks| ==> tasks[i].id != tasks[j].id
  }

  /** Filtering keeps ids unique. */
  lemma {:induction false} SelectKeepsUniqueIds(s: seq<Task>, p: Task -> bool)
    ensures UniqueIds(s) ==> UniqueIds(Select(s, p))
    decreases |s|
  {
    if s != [] && UniqueIds(s) {
      SelectKeepsUniqueIds(s[1..], p);
      var rest := Select(s[1..], p);
      var head := if p(s[0]) then [s[0]] else [];
      assert Select(s, p) == head + rest;
      forall k | 0 <= k < |rest|
        ensures rest[k].id != s[0].id
      {
        assert rest[k] in s[1..];
        var i :| 0 <= i < |s[1..]| && s[1..][i] == rest[k];
        assert s[i + 1] == rest[k];
      }
    }
  }

  // ------------------------------------------------------------------ load

  /** `loadTasks`: a non-empty saved collection replaces the tasks and sets
      `nextId` to the largest id plus one; an empty one changes nothing. */
  function LoadTasks(m: Manager, savedTasks: seq<Task>): (r: Manager)
    ensures |savedTasks| == 0 ==> r == m
    ensures |savedTasks| > 0 ==> r.tasks == savedTasks && r.saved == m.saved
    ensures |savedTasks| > 0 ==> IdsBelow(r.tasks, r.nextId)
    ensures |savedTasks| > 0 ==> exists t :: t in savedTasks && t.id == r.nextId - 1
  {
    if |savedTasks| > 0 then
      var ids := seq(|savedTasks|, i requires 0 <= i < |savedTasks| => savedTasks[i].id);
      var top := MaxOf(ids);
      assert forall t :: t in savedTasks ==> t.id <= top by {
        forall t | t in savedTasks
          ensures t.id <= top
        {
          var i :| 0 <= i < |savedTasks| && savedTasks[i] == t;
          assert ids[i] == t.id;
        }
      }
      var k :| 0 <= k < |ids| && ids[k] == top;
      assert savedTasks[k] in savedTasks;
      Manager(savedTasks, top + 1, m.saved)
    else m
  }

  /** The constructor: an empty collection with `nextId = 1`, then `loadTasks`. */
  function NewManager(savedTasks: seq<Task>): (r: Manager)
    ensures Fresh(r)
    ensures r.saved == []
    ensures r.tasks == savedTasks
  {
    LoadTasks(Manager([], 1, []), savedTasks)
  }

  // ---------------------------------------------------------------- create

  /** `createTask`. A blank title or an unknown priority is rejected before
      anything changes; otherwise exactly one task is appended and saved. */
  function CreateTask(m: Manager, title: string, description: string, priority: string,
                      category: string, dueDate: Option<int>, now: int): (r: Result<(Manager, Task)>)
    ensures Trim(title) == "" ==> r == Err(TitleRequired)
    ensures Trim(title) != "" && !ValidPriority(priority) ==> r == Err(InvalidPriority)
    ensures r.Ok? <==> Trim(title) != "" && ValidPriority(priority)
    ensures r.Ok? ==>
      var (m', t) := r.value;
      && m'.tasks == m.tasks + [t]
      && m'.saved == m.saved + [m'.tasks]
      && t.id == m.nextId && m'.nextId == m.nextId + 1
      && t.title == Trim(title) && t.description == Some(Trim(description))
      && t.priority == priority && t.category == Some(category) && t.dueDate == dueDate
      && t.extra == map[]
      && !t.completed && t.completedAt == None
      && t.createdAt == now && t.updatedAt == now
      && ValidTask(t) && CompletionConsistent(t)
    ensures r.Ok? && Fresh(m) ==> Fresh(r.value.0)
    ensures r.Ok? && Fresh(m) && UniqueIds(m.tasks) ==> UniqueIds(r.value.0.tasks)
  {
    if Trim(title) == "" then Err(TitleRequired)
    else if !ValidPriority(priority) then Err(InvalidPriority)
    else
      var t := Task(m.nextId, Trim(title), Some(Trim(description)), priority, Some(category),
                    false, now, now, dueDate, None, map[]);
      TrimIdempotent(title);
      var tasks := m.tasks + [t];
      assert forall u :: u in tasks ==> u in m.tasks || u == t;
      Ok((Manager(tasks, m.nextId + 1, m.saved + [tasks]), t))
  }

  // ------------------------------------------------------------------ read

  /** `findIndex(task => task.id === id)`, with `None` for `-1`. */
  function FindIndex(tasks: seq<Task>, id: int): (r: Option<nat>)
    ensures r.None? <==> forall j :: 0 <= j < |tasks| ==> tasks[j].id != id
    ensures r.Some? ==> r.value < |tasks| && tasks[r.value].id == id
    ensures r.Some? ==> forall j :: 0 <= j < r.value ==> tasks[j].id != id
    decreases |tasks|
  {
    if tasks == [] then None
    else if tasks[0].id == id then Some(0)
    else
      match FindIndex(tasks[1..], id)
      case None => None
      case Some(k) => Some(k + 1)
  }

  /** `getTaskById`: the first task with the id, or `null`. */
  function GetTaskById(m: Manager, id: int): (r: Option<Task>)
    ensures r.None? <==> forall t :: t in m.tasks ==> t.id != id
    ensures r.Some? ==> r.value in m.tasks && r.value.id == id
  {
    match FindIndex(m.tasks, id)
    case None => None
    case Some(i) => Some(m.tasks[i])
  }

  // ---------------------------------------------------------------- update

  /** The fields an `updates` object may carry; `None` means absent. */
  datatype Patch = Patch(
    title: Option<string>,
    description: Option<string>,
    priority: Option<string>,
    category: Option<string>,
    completed: Option<bool>,
    dueDate: Option<Option<int>>)

  const NoChange: Patch := Patch(None, None, None, None, None, None)

  datatype UpdateOutcome =
    | NotFound
    | Rejected(error: TaskError)
    | Updated(manager: Manager, task: Task)

  /** `Object.assign(task, {...updates, updatedAt})` followed by the
      `completedAt` bookkeeping. */
  function ApplyPatch(t: Task, p: Patch, now: int): (r: Task)
    ensures r.id == t.id && r.createdAt == t.createdAt && r.updatedAt == now
    ensures r.title == p.title.GetOr(t.title) && r.priority == p.priority.GetOr(t.priority)
    ensures r.description == (if p.description.Some? then p.description else t.description)
    ensures r.category == (if p.category.Some? then p.category else t.category)
    ensures r.extra == t.extra
    ensures r.completed == p.completed.GetOr(t.completed) && r.dueDate == p.dueDate.GetOr(t.dueDate)
    ensures p.completed == Some(true) && t.completedAt.Some? ==> r.completedAt == t.completedAt
    ensures p.completed == Some(true) && t.completedAt.None? ==> r.completedAt == Some(now)
    ensures p.completed == Some(false) ==> r.completedAt == None
    ensures p.completed == None ==> r.completedAt == t.completedAt
  {
    var completedAt :=
      if p.completed == Some(true) && t.completedAt.None? then Some(now)
      else if p.completed == Some(false) then None
      else t.completedAt;
    t.(title := p.title.GetOr(t.title),
       description := if p.description.Some? then p.description else t.description,
       priority := p.priority.GetOr(t.priority),
       category := if p.category.Some? then p.category else t.category,
       completed := p.completed.GetOr(t.completed),
       dueDate := p.dueDate.GetOr(t.dueDate),
       updatedAt := now,
       completedAt := completedAt)
  }

  /** A patch keeps a consistent task consistent. */
  lemma ApplyPatchKeepsCompletion(t: Task, p: Patch, now: int)
    requires CompletionConsistent(t)
    ensures CompletionConsistent(ApplyPatch(t, p, now))
  {
  }

  /** `updateTask`: an unknown id is reported before the patch is looked at;
      a blank title, or a priority that is non-empty (truthy) and unknown,
      is rejected before any change; otherwise the first task with the id is
      patched in place and the collection saved once. */
  function UpdateTask(m: Manager, id: int, p: Patch, now: int): (r: UpdateOutcome)
    ensures r.NotFound? <==> forall t :: t in m.tasks ==> t.id != id
    ensures r.Rejected? <==>
      (exists t :: t in m.tasks && t.id == id) &&
      ((p.title.Some? && Trim(p.title.value) == "") ||
       (p.priority.Some? && p.priority.value != "" && !ValidPriority(p.priority.value)))
    ensures r.Rejected? && p.title.Some? && Trim(p.title.value) == "" ==> r.error == TitleEmpty
    ensures r.Updated? ==>
      exists i :: 0 <= i < |m.tasks| && m.tasks[i].id == id
        && (forall j :: 0 <= j < i ==> m.tasks[j].id != id)
        && r.task == ApplyPatch(m.tasks[i], p, now)
        && r.manager.tasks == m.tasks[i := r.task]
    ensures r.Updated? ==> FindIndex(m.tasks, id).Some?
    ensures r.Updated? ==> r.task == ApplyPatch(m.tasks[FindIndex(m.tasks, id).value], p, now)
    ensures r.Updated? ==> r.manager.nextId == m.nextId && r.manager.saved == m.saved + [r.manager.tasks]
    ensures r.Updated? && Fresh(m) ==> Fresh(r.manager)
    ensures r.Updated? && UniqueIds(m.tasks) ==> UniqueIds(r.manager.tasks)
  {
    match FindIndex(m.tasks, id)
    case None => NotFound
    case Some(i) =>
      assert m.tasks[i] in m.tasks;
      if p.title.Some? && Trim(p.title.value) == "" then Rejected(TitleEmpty)
      else if p.priority.Some? && p.priority.value != "" && !ValidPriority(p.priority.value) then
        Rejected(InvalidPriority)
      else
        var t := ApplyPatch(m.tasks[i], p, now);
        var tasks := m.tasks[i := t];
        assert forall u :: u in tasks ==> u in m.tasks || u == t;
        Updated(Manager(tasks, m.nextId, m.saved + [tasks]), t)
  }

  /** `toggleTaskCompletion`: `null` for an unknown id; otherwise the first
      task with the id has `completed` flipped, `updatedAt` set, and
      `completedAt` set when turning on without one or cleared when turning
      off; every other field and every other task stay, `nextId` stays, and
      the collection is saved once. It is never rejected. */
  function ToggleTaskCompletion(m: Manager, id: int, now: int): (r: UpdateOutcome)
    ensures r.NotFound? <==> forall t :: t in m.tasks ==> t.id != id
    ensures !r.Rejected?
    ensures r.Updated? <==> FindIndex(m.tasks, id).Some?
    ensures r.Updated? ==>
      var i := FindIndex(m.tasks, id).value;
      var t := m.tasks[i];
      && r.task == ApplyPatch(t, NoChange.(completed := Some(!t.completed)), now)
      && r.manager.tasks == m.tasks[i := r.task]
      && r.manager.nextId == m.nextId
      && r.manager.saved == m.saved + [r.manager.tasks]
    ensures r.Updated? ==>
      var t := m.tasks[FindIndex(m.tasks, id).value];
      && r.task.completed == !t.completed
      && r.task.updatedAt == now
      && (!t.completed && t.completedAt.None? ==> r.task.completedAt == Some(now))
      && (!t.completed && t.completedAt.Some? ==> r.task.completedAt == t.completedAt)
      && (t.completed ==> r.task.completedAt == None)
      && r.task == t.(completed := r.task.completed, updatedAt := now, completedAt := r.task.completedAt)
    ensures r.Updated? && CompletionConsistent(m.tasks[FindIndex(m.tasks, id).value]) ==>
      CompletionConsistent(r.task)
    ensures r.Updated? && Fresh(m) ==> Fresh(r.manager)
    ensures r.Updated? && UniqueIds(m.tasks) ==> UniqueIds(r.manager.tasks)
  {
    match GetTaskById(m, id)
    case None => NotFound
    case Some(t) =>
      UpdateTask(m, id, NoChange.(completed := Some(!t.completed)), now)
  }

  // ---------------------------------------------------------------- delete

  predicate HasId(id: int, t: Task) {
    t.id == id
  }

  function OtherId(id: int): Task -> bool {
    (t: Task) => t.id != id
  }

  /** `deleteTask`: every task with the id goes; the answer is whether the
      collection shrank, and the collection is saved only then. */
  function DeleteTask(m: Manager, id: int): (r: (Manager, bool))
    ensures r.0.tasks == Select(m.tasks, OtherId(id))
    ensures r.1 <==> exists t :: t in m.tasks && t.id == id
    ensures forall t :: t in r.0.tasks <==> t in m.tasks && t.id != id
    ensures r.0.nextId == m.nextId
    ensures r.1 ==> r.0.saved == m.saved + [r.0.tasks]
    ensures !r.1 ==> r.0 == m
    ensures Fresh(m) ==> Fresh(r.0)
    ensures UniqueIds(m.tasks) ==> UniqueIds(r.0.tasks)
  {
    var kept := Select(m.tasks, OtherId(id));
    SelectShrinks(m.tasks, OtherId(id));
    SelectKeepsUniqueIds(m.tasks, OtherId(id));
    if |kept| < |m.tasks| then
      var i :| 0 <= i < |m.tasks| && !OtherId(id)(m.tasks[i]);
      assert m.tasks[i] in m.tasks;
      (Manager(kept, m.nextId, m.saved + [kept]), true)
    else
      assert forall t :: t in m.tasks ==> t.id != id;
      SelectAll(m.tasks, OtherId(id));
      (m, false)
  }

  // ------------------------------------------------------ filter and search

  /** The criteria `filterTasks` reads; `""` stands for an absent (falsy) one. */
  datatype Filters = Filters(status: string, priority: string, category: string, search: string)

  /** The case-insensitive text test: the lower-cased title or description
      contains `term`. */
  predicate MatchesText(term: string, t: Task) {
    Contains(Lower(t.title), term) || (t.description.Some? && Contains(Lower(t.description.value), term))
  }

  /** The text test raises a `TypeError`: the title does not match, so the
      `||` goes on to call `toLowerCase` on a description that is not a
      string. */
  predicate TextThrows(term: string, t: Task) {
    !Contains(Lower(t.title), term) && t.description.None?
  }

  /** The search term the source derives from a query. */
  function SearchTerm(query: string): string {
    Lower(Trim(query))
  }

  /** The status criterion: `'completed'` and `'pending'` restrict, any
      other value keeps every task. */
  predicate StatusOk(status: string, t: Task) {
    (status == "completed" ==> t.completed) && (status == "pending" ==> !t.completed)
  }

  /** The priority criterion, skipped when absent or `'all'`. */
  predicate PriorityOk(priority: string, t: Task) {
    priority != "" && priority != "all" ==> t.priority == priority
  }

  /** The category criterion, skipped when absent or `'all'`. */
  predicate CategoryOk(category: string, t: Task) {
    category != "" && category != "all" ==> t.category == Some(category)
  }

  /** The search criterion, skipped when the query is blank. */
  predicate SearchOk(search: string, t: Task) {
    Trim(search) != "" ==> MatchesText(SearchTerm(search), t)
  }

  /** One task against all the criteria at once: they are combined with AND. */
  predicate MatchesFilters(f: Filters, t: Task) {
    StatusOk(f.status, t) && PriorityOk(f.priority, t) && CategoryOk(f.category, t) && SearchOk(f.search, t)
  }

  function StatusTest(status: string): Task -> bool {
    (t: Task) => StatusOk(status, t)
  }

  function PriorityTest(priority: string): Task -> bool {
    (t: Task) => t.priority == priority
  }

  function CategoryTest(category: string): Task -> bool {
    (t: Task) => t.category == Some(category)
  }

  function TextTest(term: string): Task -> bool {
    (t: Task) => MatchesText(term, t)
  }

  function FilterTest(f: Filters): Task -> bool {
    (t: Task) => MatchesFilters(f, t)
  }

  /** The first `n` criteria of `f`, combined. */
  function Upto(f: Filters, n: nat): Task -> bool {
    (t: Task) =>
      && (n >= 1 ==> StatusOk(f.status, t))
      && (n >= 2 ==> PriorityOk(f.priority, t))
      && (n >= 3 ==> CategoryOk(f.category, t))
      && (n >= 4 ==> SearchOk(f.search, t))
  }

  /** `t` survives the first three stages and then makes the search stage
      throw. */
  predicate SearchThrows(f: Filters, t: Task) {
    StatusOk(f.status, t) && PriorityOk(f.priority, t) && CategoryOk(f.category, t)
    && TextThrows(SearchTerm(f.search), t)
  }

  /** The first three stages of `filterTasks` (status, priority, category),
      as the source applies them. */
  function Narrowed(tasks: seq<Task>, f: Filters): seq<Task> {
    var byStatus :=
      if f.status == "completed" || f.status == "pending" then Select(tasks, StatusTest(f.status))
      else tasks;
    var byPriority :=
      if f.priority != "" && f.priority != "all" then Select(byStatus, PriorityTest(f.priority))
      else byStatus;
    if f.category != "" && f.category != "all" then Select(byPriority, CategoryTest(f.category))
    else byPriority
  }

  /** Filtering through one stage: either it applies or it keeps everything. */
  lemma StageStep(s: seq<Task>, applies: bool, q: Task -> bool, before: Task -> bool, after: Task -> bool)
    requires forall t :: after(t) == (before(t) && (applies ==> q(t)))
    ensures (if applies then Select(Select(s, before), q) else Select(s, before)) == Select(s, after)
  {
    if applies {
      SelectSelect(s, before, q, after);
    } else {
      SelectExt(s, before, after);
    }
  }

  /** The staged narrowing equals one pass with the three criteria combined. */
  lemma NarrowedSelect(s: seq<Task>, f: Filters)
    ensures Narrowed(s, f) == Select(s, Upto(f, 3))
  {
    SelectAll(s, Upto(f, 0));
    StageStep(s, f.status == "completed" || f.status == "pending", StatusTest(f.status), Upto(f, 0), Upto(f, 1));
    StageStep(s, f.priority != "" && f.priority != "all", PriorityTest(f.priority), Upto(f, 1), Upto(f, 2));
    StageStep(s, f.category != "" && f.category != "all", CategoryTest(f.category), Upto(f, 2), Upto(f, 3));
  }

  /** `filterTasks`: a `TypeError` exactly when the search stage reaches a
      task whose description is not a string and whose title does not match;
      otherwise exactly the tasks meeting all criteria, in their original
      order, with the collection left alone. */
  function FilterTasks(m: Manager, f: Filters): (r: Result<seq<Task>>)
    ensures r.Err? <==> Trim(f.search) != "" && exists t :: t in m.tasks && SearchThrows(f, t)
    ensures r.Err? ==> r.error == TypeError
    ensures r.Ok? ==> r.value == Select(m.tasks, FilterTest(f))
    ensures r.Ok? ==> forall t :: t in r.value <==> t in m.tasks && MatchesFilters(f, t)
    ensures r.Ok? ==> IsSubseq(r.value, m.tasks)
  {
    var narrowed := Narrowed(m.tasks, f);
    NarrowedSelect(m.tasks, f);
    SelectIsSubseq(m.tasks, FilterTest(f));
    var term := SearchTerm(f.search);
    if Trim(f.search) != "" && exists t :: t in narrowed && TextThrows(term, t) then
      Err(TypeError)
    else
      StageStep(m.tasks, Trim(f.search) != "", TextTest(term), Upto(f, 3), Upto(f, 4));
      SelectExt(m.tasks, Upto(f, 4), FilterTest(f));
      Ok(if Trim(f.search) != "" then Select(narrowed, TextTest(term)) else narrowed)
  }

  /** `searchTasks`: a blank query returns every task; otherwise a
      `TypeError` exactly when some task has a non-matching title and a
      description that is not a string, and else the tasks whose title or
      description contains the trimmed, lower-cased query. */
  function SearchTasks(m: Manager, query: string): (r: Result<seq<Task>>)
    ensures r.Err? <==> Trim(query) != "" && exists t :: t in m.tasks && TextThrows(SearchTerm(query), t)
    ensures r.Err? ==> r.error == TypeError
    ensures r.Ok? && Trim(query) == "" ==> r.value == m.tasks
    ensures r.Ok? ==> forall t :: t in r.value <==> t in m.tasks && SearchOk(query, t)
    ensures r.Ok? ==> IsSubseq(r.value, m.tasks)
  {
    if Trim(query) == "" then
      SelectAll(m.tasks, Upto(Filters("", "", "", ""), 0));
      SelectIsSubseq(m.tasks, Upto(Filters("", "", "", ""), 0));
      Ok(m.tasks)
    else if exists t :: t in m.tasks && TextThrows(SearchTerm(query), t) then
      Err(TypeError)
    else
      SelectIsSubseq(m.tasks, TextTest(SearchTerm(query)));
      Ok(Select(m.tasks, TextTest(SearchTerm(query))))
  }

  /** Searching is filtering with only the search criterion, failures
      included. */
  lemma SearchIsFilter(m: Manager, query: string)
    ensures SearchTasks(m, query) == FilterTasks(m, Filters("all", "", "", query))
  {
    var f := Filters("all", "", "", query);
    NarrowedSelect(m.tasks, f);
    SelectAll(m.tasks, Upto(f, 3));
    if Trim(query) == "" {
      SelectAll(m.tasks, FilterTest(f));
    } else {
      SelectExt(m.tasks, TextTest(SearchTerm(query)), FilterTest(f));
    }
  }

  /** Tasks made by `createTask` all have string descriptions, so filtering
      a collection of them never fails. */
  lemma StringDescriptionsNeverThrow(m: Manager, f: Filters)
    requires forall t :: t in m.tasks ==> t.description.Some?
    ensures FilterTasks(m, f).Ok?
    ensures SearchTasks(m, f.search).Ok?
  {
  }

  // ------------------------------------------------------------ statistics

  predicate IsCompleted(t: Task) {
    t.completed
  }

  predicate IsPending(t: Task) {
    !t.completed
  }

  predicate IsPendingHigh(t: Task) {
    !t.completed && t.priority == "high"
  }

  predicate Overdue(today: int, t: Task) {
    !t.completed && t.dueDate.Some? && t.dueDate.value < today
  }

  predicate DueToday(today: int, t: Task) {
    !t.completed && t.dueDate == Some(today)
  }

  function OverdueTest(today: int): Task -> bool {
    (t: Task) => Overdue(today, t)
  }

  function DueTodayTest(today: int): Task -> bool {
    (t: Task) => DueToday(today, t)
  }

  /** `getOverdueTasks`: uncompleted tasks due before today. */
  function GetOverdueTasks(m: Manager, today: int): (r: seq<Task>)
    ensures forall t :: t in r <==> t in m.tasks && !t.completed && t.dueDate.Some? && t.dueDate.value < today
    ensures IsSubseq(r, m.tasks)
  {
    SelectIsSubseq(m.tasks, OverdueTest(today));
    Select(m.tasks, OverdueTest(today))
  }

  /** `getTasksDueToday`: uncompleted tasks due today. */
  function GetTasksDueToday(m: Manager, today: int): (r: seq<Task>)
    ensures forall t :: t in r <==> t in m.tasks && !t.completed && t.dueDate == Some(today)
    ensures IsSubseq(r, m.tasks)
  {
    SelectIsSubseq(m.tasks, DueTodayTest(today));
    Select(m.tasks, DueTodayTest(today))
  }

  /** A task is never both overdue and due today. */
  lemma OverdueAndDueTodayDisjoint(m: Manager, today: int)
    ensures forall t :: !(t in GetOverdueTasks(m, today) && t in GetTasksDueToday(m, today))
  {
  }

  datatype Stats = Stats(total: nat, completed: nat, pending: int, highPriority: nat,
                         overdue: nat, completionRate: int)

  /** `Math.round(100 * completed / total)`, or 0 for an empty collection:
      `Math.round(x)` is `floor(x + 1/2)`, computed here on exact rationals. */
  function CompletionRate(completed: nat, total: nat): (rate: int)
    requires completed <= total
    ensures total == 0 ==> rate == 0
    ensures 0 <= rate <= 100
    ensures total > 0 ==> 2 * total * rate <= 200 * completed + total < 2 * total * (rate + 1)
  {
    if total > 0 then (200 * completed + total) / (2 * total) else 0
  }

  /** `getStatistics`. */
  function GetStatistics(m: Manager, today: int): (s: Stats)
    ensures s.total == |m.tasks|
    ensures s.completed == Count(m.tasks, IsCompleted)
    ensures s.pending == s.total - s.completed == Count(m.tasks, IsPending)
    ensures s.highPriority == Count(m.tasks, IsPendingHigh) <= s.pending
    ensures s.overdue == |GetOverdueTasks(m, today)| <= s.pending
    ensures 0 <= s.completionRate <= 100
    ensures s.total == 0 ==> s.completionRate == 0
    ensures s.total > 0 ==>
      2 * s.total * s.completionRate <= 200 * s.completed + s.total < 2 * s.total * (s.completionRate + 1)
  {
    var total := |m.tasks|;
    var completed := Count(m.tasks, IsCompleted);
    CountSplit(m.tasks, IsCompleted, IsPending);
    CountMono(m.tasks, IsPendingHigh, IsPending);
    CountMono(m.tasks, OverdueTest(today), IsPending);
    Stats(total, completed, total - completed, Count(m.tasks, IsPendingHigh),
          Count(m.tasks, OverdueTest(today)), CompletionRate(completed, total))
  }

  // ------------------------------------------------------------------ bulk

  /** Two collections holding the same ids position by position. */
  ghost predicate SameIds(a: seq<Task>, b: seq<Task>) {
    |a| == |b| && forall i :: 0 <= i < |a| ==> a[i].id == b[i].id
  }

  /** Keeping ids in place keeps them fresh and unique. */
  lemma SameIdsKeepInvariants(a: seq<Task>, b: seq<Task>, bound: int)
    requires SameIds(a, b)
    ensures IdsBelow(a, bound) ==> IdsBelow(b, bound)
    ensures UniqueIds(a) ==> UniqueIds(b)
  {
    if IdsBelow(a, bound) {
      forall t | t in b
        ensures t.id < bound
      {
        var i :| 0 <= i < |b| && b[i] == t;
        assert a[i] in a;
      }
    }
  }

  /** The change `markAllCompleted` makes to one uncompleted task. */
  function Complete(t: Task, now: int): Task {
    if t.completed then t else t.(completed := true, completedAt := Some(now), updatedAt := now)
  }

  /** Nothing left to complete means nothing changes. */
  lemma {:induction false} NoPendingNoChange(tasks: seq<Task>, now: int)
    requires Count(tasks, IsPending) == 0
    ensures seq(|tasks|, i requires 0 <= i < |tasks| => Complete(tasks[i], now)) == tasks
  {
    SelectShrinks(tasks, IsCompleted);
    CountSplit(tasks, IsCompleted, IsPending);
  }

  /** `markAllCompleted`: every uncompleted task becomes completed with both
      timestamps set to `now`; the count is how many were uncompleted and the
      collection is saved once if it is positive. */
  function MarkAllCompleted(m: Manager, now: int): (r: (Manager, nat))
    ensures r.1 == Count(m.tasks, IsPending)
    ensures |r.0.tasks| == |m.tasks| && r.0.nextId == m.nextId
    ensures forall i :: 0 <= i < |m.tasks| ==>
      r.0.tasks[i].completed && r.0.tasks[i].id == m.tasks[i].id && r.0.tasks[i].title == m.tasks[i].title
    ensures forall i :: 0 <= i < |m.tasks| && m.tasks[i].completed ==> r.0.tasks[i] == m.tasks[i]
    ensures forall i :: 0 <= i < |m.tasks| && !m.tasks[i].completed ==>
      r.0.tasks[i] == m.tasks[i].(completed := true, completedAt := Some(now), updatedAt := now)
    ensures forall i :: 0 <= i < |m.tasks| && CompletionConsistent(m.tasks[i]) ==> CompletionConsistent(r.0.tasks[i])
    ensures r.1 > 0 ==> r.0.saved == m.saved + [r.0.tasks]
    ensures r.1 == 0 ==> r.0 == m
    ensures Fresh(m) ==> Fresh(r.0)
    ensures UniqueIds(m.tasks) ==> UniqueIds(r.0.tasks)
  {
    var tasks := seq(|m.tasks|, i requires 0 <= i < |m.tasks| => Complete(m.tasks[i], now));
    var count := Count(m.tasks, IsPending);
    SameIdsKeepInvariants(m.tasks, tasks, m.nextId);
    if count > 0 then (Manager(tasks, m.nextId, m.saved + [tasks]), count)
    else
      NoPendingNoChange(m.tasks, now);
      (m, 0)
  }

  /** A second `markAllCompleted` right after the first finds nothing to do
      and does not save. */
  lemma MarkAllCompletedTwice(m: Manager, now: int, later: int)
    ensures MarkAllCompleted(MarkAllCompleted(m, now).0, later) == (MarkAllCompleted(m, now).0, 0)
  {
    var m1 := MarkAllCompleted(m, now).0;
    SelectAll(m1.tasks, IsCompleted);
    CountSplit(m1.tasks, IsCompleted, IsPending);
  }

  /** `deleteCompletedTasks`: exactly the uncompleted tasks stay, in order;
      the count removed is the number completed, saved once if positive. */
  function DeleteCompletedTasks(m: Manager): (r: (Manager, nat))
    ensures r.0.tasks == Select(m.tasks, IsPending)
    ensures r.1 == |m.tasks| - |r.0.tasks| == Count(m.tasks, IsCompleted)
    ensures r.0.nextId == m.nextId
    ensures r.1 > 0 ==> r.0.saved == m.saved + [r.0.tasks]
    ensures r.1 == 0 ==> r.0 == m
    ensures Fresh(m) ==> Fresh(r.0)
    ensures UniqueIds(m.tasks) ==> UniqueIds(r.0.tasks)
  {
    var kept := Select(m.tasks, IsPending);
    CountSplit(m.tasks, IsCompleted, IsPending);
    SelectKeepsUniqueIds(m.tasks, IsPending);
    var count := |m.tasks| - |kept|;
    if count > 0 then (Manager(kept, m.nextId, m.saved + [kept]), count)
    else
      SelectShrinks(m.tasks, IsPending);
      SelectAll(m.tasks, IsPending);
      (m, 0)
  }

  /** `clearAllTasks`: the collection empties and ids restart at 1, together. */
  function ClearAllTasks(m: Manager): (r: (Manager, nat))
    ensures r.0.tasks == [] && r.0.nextId == 1 && r.1 == |m.tasks|
    ensures r.0.saved == m.saved + [[]]
    ensures Fresh(r.0)
  {
    (Manager([], 1, m.saved + [[]]), |m.tasks|)
  }

  // -------------------------------------------------------------- grouping

  /** The property name `grouped[task.category]` uses. A category that is
      not a string is keyed as `'undefined'` (see the README). */
  function CategoryKey(t: Task): string {
    t.category.GetOr("undefined")
  }

  function KeyTest(c: string): Task -> bool {
    (t: Task) => CategoryKey(t) == c
  }

  /** A key no task has selects nothing. */
  lemma AbsentCategory(tasks: seq<Task>, c: string)
    requires forall t :: t in tasks ==> CategoryKey(t) != c
    ensures Select(tasks, KeyTest(c)) == []
  {
    var r := Select(tasks, KeyTest(c));
    assert forall i :: 0 <= i < |r| ==> r[i] in tasks;
  }

  /** The category keys of the tasks, in collection order. */
  function CategoryKeys(tasks: seq<Task>): (r: seq<string>)
    ensures |r| == |tasks|
    ensures forall i :: 0 <= i < |tasks| ==> r[i] == CategoryKey(tasks[i])
  {
    seq(|tasks|, i requires 0 <= i < |tasks| => CategoryKey(tasks[i]))
  }

  /** The value of a string of decimal digits. */
  function DigitsValue(k: string): nat
    decreases |k|
  {
    if k == [] then 0
    else
      var d := k[|k| - 1] as int - '0' as int;
      DigitsValue(k[..|k| - 1]) * 10 + (if 0 <= d <= 9 then d else 0)
  }

  /** An array index in the sense of section 6.1.7 of ECMA-262: the
      canonical decimal form (no sign, no leading zero) of an integer below
      2^32 - 1. */
  predicate IsArrayIndex(k: string) {
    && |k| > 0
    && (forall i :: 0 <= i < |k| ==> '0' <= k[i] <= '9')
    && (k[0] == '0' ==> |k| == 1)
    && DigitsValue(k) < 0xFFFF_FFFF
  }

  function IndexTest(): string -> bool {
    (k: string) => IsArrayIndex(k)
  }

  function NameTest(): string -> bool {
    (k: string) => !IsArrayIndex(k)
  }

  /** The order in which an ordinary object lists its own string keys
      (section 10.1.11.1 of ECMA-262, `OrdinaryOwnPropertyKeys`): array
      indices first, in ascending numeric order, then the other names in the
      order they were first added; `added` is the sequence of additions. */
  predicate OwnKeyOrder(added: seq<string>, order: seq<string>) {
    forall i, j :: 0 <= i < j < |order| ==>
      && (IsArrayIndex(order[j]) ==> IsArrayIndex(order[i]))
      && (IsArrayIndex(order[i]) && IsArrayIndex(order[j]) ==>
            DigitsValue(order[i]) <= DigitsValue(order[j]))
      && (!IsArrayIndex(order[i]) && !IsArrayIndex(order[j]) ==>
            order[i] in added && order[j] in added && FirstIndex(added, order[i]) < FirstIndex(added, order[j]))
  }

  predicate AscendingValues(s: seq<string>) {
    forall i, j :: 0 <= i < j < |s| ==> DigitsValue(s[i]) <= DigitsValue(s[j])
  }

  /** Prepending a value no larger than any present keeps the order. */
  lemma AscendingCons(h: string, t: seq<string>)
    ensures AscendingValues(t) && (forall y :: y in t ==> DigitsValue(h) <= DigitsValue(y)) ==>
      AscendingValues([h] + t)
  {
    if AscendingValues(t) && forall y :: y in t ==> DigitsValue(h) <= DigitsValue(y) {
      var r := [h] + t;
      forall i, j | 0 <= i < j < |r|
        ensures DigitsValue(r[i]) <= DigitsValue(r[j])
      {
        assert r[j] == t[j - 1];
        if i > 0 {
          assert r[i] == t[i - 1];
        }
      }
    }
  }

  /** One insertion step of a sort by numeric value. */
  function InsertByValue(x: string, s: seq<string>): (r: seq<string>)
    ensures multiset(r) == multiset(s) + multiset{x}
    ensures forall y :: y in r <==> y == x || y in s
    ensures AscendingValues(s) ==> AscendingValues(r)
    decreases |s|
  {
    if s == [] then [x]
    else
      assert s == [s[0]] + s[1..];
      if DigitsValue(x) <= DigitsValue(s[0]) then
        AscendingCons(x, s);
        [x] + s
      else
        var t := InsertByValue(x, s[1..]);
        assert AscendingValues(s) ==> forall y :: y in t ==> DigitsValue(s[0]) <= DigitsValue(y);
        AscendingCons(s[0], t);
        [s[0]] + t
  }

  /** Array indices sorted by numeric value. */
  function SortByValue(s: seq<string>): (r: seq<string>)
    ensures multiset(r) == multiset(s)
    ensures AscendingValues(r)
    decreases |s|
  {
    if s == [] then []
    else
      assert s == [s[0]] + s[1..];
      InsertByValue(s[0], SortByValue(s[1..]))
  }

  /** Sorted array indices followed by names in first-added order are in
      own-key order. */
  lemma OwnKeyOrderJoin(added: seq<string>, indices: seq<string>, names: seq<string>)
    requires forall k :: k in indices ==> IsArrayIndex(k)
    requires AscendingValues(indices)
    requires forall k :: k in names ==> !IsArrayIndex(k) && k in added
    requires forall i, j :: 0 <= i < j < |names| ==> FirstIndex(added, names[i]) < FirstIndex(added, names[j])
    ensures OwnKeyOrder(added, indices + names)
  {
    var r := indices + names;
    forall i, j | 0 <= i < j < |r|
      ensures IsArrayIndex(r[j]) ==> IsArrayIndex(r[i])
      ensures IsArrayIndex(r[i]) && IsArrayIndex(r[j]) ==> DigitsValue(r[i]) <= DigitsValue(r[j])
      ensures !IsArrayIndex(r[i]) && !IsArrayIndex(r[j]) ==>
        r[i] in added && r[j] in added && FirstIndex(added, r[i]) < FirstIndex(added, r[j])
    {
      if j < |indices| {
        assert r[i] == indices[i] && r[j] == indices[j];
      } else if i < |indices| {
        assert r[i] == indices[i] && r[j] == names[j - |indices|];
      } else {
        assert r[i] == names[i - |indices|] && r[j] == names[j - |indices|];
      }
    }
  }

  /** Joining two duplicate-free sequences with no common element. */
  lemma JoinNoDuplicates(a: seq<string>, b: seq<string>)
    requires NoDuplicates(a) && NoDuplicates(b)
    requires forall k :: k in a ==> k !in b
    ensures NoDuplicates(a + b)
  {
    var r := a + b;
    forall i, j | 0 <= i < j < |r|
      ensures r[i] != r[j]
    {
      if j >= |a| && i < |a| {
        assert r[i] in a && r[j] == b[j - |a|];
      } else if j >= |a| {
        assert r[i] == b[i - |a|] && r[j] == b[j - |a|];
      }
    }
  }

  /** The key order of an object built by adding the keys `added` in turn. */
  function OwnKeys(added: seq<string>): (r: seq<string>)
    ensures forall k :: k in r <==> k in added
    ensures NoDuplicates(r)
    ensures OwnKeyOrder(added, r)
  {
    var d := Distinct(added);
    var found := Select(d, IndexTest());
    var indices := SortByValue(found);
    var names := Select(d, NameTest());
    SelectKeepsFirstSeen(d, NameTest(), added);
    SelectNoDuplicates(d, IndexTest());
    SelectNoDuplicates(d, NameTest());
    PermutationNoDuplicates(found, indices);
    assert forall k :: k in indices <==> k in found by {
      forall k ensures k in indices <==> k in found {
        assert k in indices <==> k in multiset(indices);
      }
    }
    OwnKeyOrderJoin(added, indices, names);
    JoinNoDuplicates(indices, names);
    indices + names
  }

  /** `getTasksByCategory`: a `TypeError` when some category names a member
      every object inherits (`grouped[c]` is then truthy but has no `push`);
      otherwise each category present maps to its tasks, in collection
      order, and the object lists its keys in `order`. */
  function GetTasksByCategory(tasks: seq<Task>): (r: Result<Grouping>)
    ensures r.Err? <==> exists t :: t in tasks && CategoryKey(t) in InheritedKeys
    ensures r.Err? ==> r.error == TypeError
    ensures r.Ok? ==> forall c :: c in r.value.groups <==> exists t :: t in tasks && CategoryKey(t) == c
    ensures r.Ok? ==> forall c :: c in r.value.groups ==> r.value.groups[c] == Select(tasks, KeyTest(c))
    ensures r.Ok? ==> forall c :: c in r.value.order <==> c in r.value.groups
    ensures r.Ok? ==> NoDuplicates(r.value.order) && OwnKeyOrder(CategoryKeys(tasks), r.value.order)
  {
    if exists t :: t in tasks && CategoryKey(t) in InheritedKeys then Err(TypeError)
    else
      var keys := CategoryKeys(tasks);
      assert forall c :: c in keys <==> exists t :: t in tasks && CategoryKey(t) == c by {
        forall c | c in keys ensures exists t :: t in tasks && CategoryKey(t) == c {
          var i :| 0 <= i < |keys| && keys[i] == c;
          assert tasks[i] in tasks;
        }
        forall c | exists t :: t in tasks && CategoryKey(t) == c ensures c in keys {
          var t :| t in tasks && CategoryKey(t) == c;
          var i :| 0 <= i < |tasks| && tasks[i] == t;
          assert keys[i] == c;
        }
      }
      Ok(Grouping(OwnKeys(keys), GroupTasks(tasks)))
  }

  /** The object `getTasksByCategory` builds: its keys in listing order, and
      the array under each. */
  datatype Grouping = Grouping(order: seq<string>, groups: map<string, seq<Task>>)

  /** The grouping loop, one task at a time. */
  function GroupTasks(tasks: seq<Task>): (r: map<string, seq<Task>>)
    ensures forall c :: c in r <==> exists t :: t in tasks && CategoryKey(t) == c
    ensures forall c :: c in r ==> r[c] == Select(tasks, KeyTest(c))
    decreases |tasks|
  {
    if tasks == [] then map[]
    else
      var key := CategoryKey(tasks[0]);
      var g := GroupTasks(tasks[1..]);
      GroupStep(tasks, g);
      g[key := [tasks[0]] + (if key in g then g[key] else [])]
  }

  /** Adding the first task to the grouping of the others groups them all. */
  lemma GroupStep(tasks: seq<Task>, g: map<string, seq<Task>>)
    requires tasks != []
    requires forall c :: c in g <==> exists t :: t in tasks[1..] && CategoryKey(t) == c
    requires forall c :: c in g ==> g[c] == Select(tasks[1..], KeyTest(c))
    ensures var key := CategoryKey(tasks[0]);
      var r := g[key := [tasks[0]] + (if key in g then g[key] else [])];
      && (forall c :: c in r <==> exists t :: t in tasks && CategoryKey(t) == c)
      && (forall c :: c in r ==> r[c] == Select(tasks, KeyTest(c)))
  {
    var first := tasks[0];
    var key := CategoryKey(first);
    var r := g[key := [first] + (if key in g then g[key] else [])];
    if key !in g {
      AbsentCategory(tasks[1..], key);
    }
    assert forall t :: t in tasks <==> t == first || t in tasks[1..];
    forall c | c in r
      ensures r[c] == Select(tasks, KeyTest(c))
    {
      assert Select(tasks, KeyTest(c))
          == (if key == c then [first] else []) + Select(tasks[1..], KeyTest(c));
    }
  }

  // -------------------------------------------------------- export/import

  function OptionalNumber(v: Option<int>): Json {
    match v
    case None => JNull
    case Some(n) => JNum(n)
  }

  /** The fields of a task the model types, as `JSON.stringify` writes them
      (timestamps as numbers); a description or category that is not a
      string is left out. */
  function TypedFields(t: Task): (r: map<string, Json>)
    ensures r.Keys <= TaskKeys
    ensures "description" in r <==> t.description.Some?
    ensures "category" in r <==> t.category.Some?
  {
    var base := map[
      "id" := JNum(t.id),
      "title" := JStr(t.title),
      "priority" := JStr(t.priority),
      "completed" := JBool(t.completed),
      "createdAt" := JNum(t.createdAt),
      "updatedAt" := JNum(t.updatedAt),
      "dueDate" := OptionalNumber(t.dueDate),
      "completedAt" := OptionalNumber(t.completedAt)];
    var withDescription := if t.description.Some? then base["description" := JStr(t.description.value)] else base;
    if t.category.Some? then withDescription["category" := JStr(t.category.value)] else withDescription
  }

  /** One task as `JSON.stringify` writes it: its other own fields and its
      typed ones. */
  function EncodeTask(t: Task): Json {
    JObj(t.extra + TypedFields(t))
  }

  /** The tasks array of an export, one encoded task per task, in order. */
  function EncodeAll(tasks: seq<Task>): (r: seq<Json>)
    ensures |r| == |tasks|
    ensures forall i :: 0 <= i < |tasks| ==> r[i] == EncodeTask(tasks[i])
    decreases |tasks|
  {
    if tasks == [] then [] else [EncodeTask(tasks[0])] + EncodeAll(tasks[1..])
  }

  /** `exportTasks`: the tasks, the export time and their count. */
  function ExportTasks(m: Manager, now: int): (r: Text)
    ensures r.Doc? && Has(r.doc, "tasks") && Has(r.doc, "totalTasks")
    ensures r.doc.fields["tasks"] == JArr(EncodeAll(m.tasks))
    ensures r.doc.fields["totalTasks"] == JNum(|m.tasks|)
  {
    Doc(JObj(map["tasks" := JArr(EncodeAll(m.tasks)), "exportDate" := JNum(now), "totalTasks" := JNum(|m.tasks|)]))
  }

  // The readers below see a document parsed from an imported file, whose
  // strings are all `JStr`: `JSerial` only arises inside a backup envelope.

  function StringField(j: Json, k: string): string {
    match Field(j, k)
    case Some(JStr(s)) => s
    case _ => ""
  }

  function MaybeString(j: Json, k: string): Option<string> {
    match Field(j, k)
    case Some(JStr(s)) => Some(s)
    case _ => None
  }

  function NumberField(j: Json, k: string): Option<int> {
    match Field(j, k)
    case Some(JNum(n)) => Some(n)
    case _ => None
  }

  /** The own fields of `j` the task type does not name. */
  function ExtraFields(j: Json): (r: Extra)
    ensures j.JObj? ==> forall k :: k in j.fields && k !in TaskKeys ==> k in r && r[k] == j.fields[k]
    ensures forall k :: k in r ==> Has(j, k)
  {
    if j.JObj? then map k | k in j.fields && k !in TaskKeys :: j.fields[k] else map[]
  }

  /** `{...taskData, id}` read back as a task. */
  function DecodeTask(j: Json, id: int): Task {
    Task(id, StringField(j, "title"), MaybeString(j, "description"), StringField(j, "priority"),
         MaybeString(j, "category"), Field(j, "completed") == Some(JBool(true)),
         NumberField(j, "createdAt").GetOr(0), NumberField(j, "updatedAt").GetOr(0),
         NumberField(j, "dueDate"), NumberField(j, "completedAt"), ExtraFields(j))
  }

  /** A name the task type uses is read from the typed fields. */
  lemma TypedWins(t: Task, k: string)
    requires k in TaskKeys
    ensures Field(EncodeTask(t), k) == (if k in TypedFields(t) then Some(TypedFields(t)[k]) else None)
  {
  }

  /** Reading back the other own fields of an encoded task. */
  lemma ExtraOfEncode(t: Task)
    ensures ExtraFields(EncodeTask(t)) == t.extra
  {
    var e := EncodeTask(t);
    assert forall k :: k in t.extra ==> k !in TypedFields(t);
    assert ExtraFields(e).Keys == t.extra.Keys;
  }

  /** Encoding a task and reading it back gives the task, renumbered. */
  lemma DecodeEncode(t: Task, id: int)
    ensures DecodeTask(EncodeTask(t), id) == t.(id := id)
  {
    ExtraOfEncode(t);
    TypedWins(t, "title");
    TypedWins(t, "description");
    TypedWins(t, "priority");
    TypedWins(t, "category");
    TypedWins(t, "completed");
    TypedWins(t, "createdAt");
    TypedWins(t, "updatedAt");
    TypedWins(t, "dueDate");
    TypedWins(t, "completedAt");
  }

  /** The value the model keeps for field `k` when it holds `v`: strings in
      the string fields, a boolean `completed`, numbers in the time fields
      (or `null` in the optional ones),
      and anything under a name the task type does not use. */
  predicate Representable(k: string, v: Json) {
    if k in {"title", "priority", "description", "category"} then v.JStr?
    else if k == "completed" then v.JBool?
    else if k in {"createdAt", "updatedAt"} then v.JNum?
    else if k in {"dueDate", "completedAt"} then v.JNum? || v.JNull?
    else k != "id"
  }

  /** The object `importTasks` appends for a valid entry is `{...j, id}`:
      the model's task, written back out, has that fresh `id` and every
      field of `j` whose value it can represent, unchanged. */
  lemma ImportKeepsFields(j: Json, id: int)
    requires ValidTaskData(j)
    ensures var e := EncodeTask(DecodeTask(j, id));
      && e.fields["id"] == JNum(id)
      && forall k :: k in j.fields && Representable(k, j.fields[k]) ==> k in e.fields && e.fields[k] == j.fields[k]
  {
    var t := DecodeTask(j, id);
    var e := EncodeTask(t);
    TypedWins(t, "id");
    forall k | k in j.fields && Representable(k, j.fields[k])
      ensures k in e.fields && e.fields[k] == j.fields[k]
    {
      if k in TaskKeys {
        TypedWins(t, k);
        TypedFieldKept(j, id, k);
      } else {
        assert k in t.extra && k !in TypedFields(t);
      }
    }
  }

  /** One named field of a valid entry survives decoding and encoding. */
  lemma TypedFieldKept(j: Json, id: int, k: string)
    requires j.JObj? && k in j.fields && k in TaskKeys && Representable(k, j.fields[k])
    ensures k in TypedFields(DecodeTask(j, id)) && TypedFields(DecodeTask(j, id))[k] == j.fields[k]
  {
    var v := j.fields[k];
    if k == "completed" {
      assert v == JBool(v.b);
    } else if k == "dueDate" || k == "completedAt" {
      if v.JNum? {
        assert v == JNum(v.n);
      }
    } else if k == "createdAt" || k == "updatedAt" {
      assert v == JNum(v.n);
    } else {
      assert v == JStr(v.s);
    }
  }

  /** `validateTaskData`: an object whose title is a non-blank string, whose
      priority is one of the three levels and whose `completed` is a boolean. */
  predicate ValidTaskData(j: Json) {
    && j.JObj?
    && Field(j, "title").Some? && j.fields["title"].JStr? && Trim(j.fields["title"].s) != ""
    && Field(j, "priority").Some? && j.fields["priority"].JStr? && ValidPriority(j.fields["priority"].s)
    && Field(j, "completed").Some? && j.fields["completed"].JBool?
  }

  /** A typed task passes `validateTaskData` exactly when its title is
      non-blank and its priority is one of the three levels. */
  lemma ValidTaskDataOfEncode(t: Task)
    ensures ValidTaskData(EncodeTask(t)) <==> ValidTask(t)
  {
  }

  /** The tasks `importTasks` appends for `items`, numbered from `nextId`. */
  function ImportItems(items: seq<Json>, nextId: int): (r: seq<Task>)
    ensures |r| == Count(items, ValidTaskData)
    ensures forall k :: 0 <= k < |r| ==> r[k].id == nextId + k
    decreases |items|
  {
    if items == [] then []
    else if ValidTaskData(items[0]) then [DecodeTask(items[0], nextId)] + ImportItems(items[1..], nextId + 1)
    else ImportItems(items[1..], nextId)
  }

  /** `importTasks`: fails when the text is not JSON or has no `tasks`
      array; otherwise appends a freshly numbered task for every valid entry,
      skips the rest, and saves once if anything was imported. */
  function ImportTasks(m: Manager, data: Text): (r: Result<(Manager, nat)>)
    ensures r.Err? <==> !(data.Doc? && Has(data.doc, "tasks") && data.doc.fields["tasks"].JArr?)
    ensures r.Err? ==> r.error == ImportFailed
    ensures r.Ok? ==>
      var (m', count) := r.value;
      var items := data.doc.fields["tasks"].items;
      && count == Count(items, ValidTaskData)
      && m'.tasks == m.tasks + ImportItems(items, m.nextId)
      && m'.nextId == m.nextId + count
      && (count > 0 ==> m'.saved == m.saved + [m'.tasks])
      && (count == 0 ==> m' == m)
    ensures r.Ok? && Fresh(m) ==> Fresh(r.value.0)
    ensures r.Ok? && Fresh(m) && UniqueIds(m.tasks) ==> UniqueIds(r.value.0.tasks)
  {
    match Parse(data)
    case None => Err(ImportFailed)
    case Some(j) =>
      match Field(j, "tasks")
      case Some(JArr(items)) =>
        var added := ImportItems(items, m.nextId);
        var tasks := m.tasks + added;
        assert forall k :: 0 <= k < |added| ==> m.nextId <= added[k].id < m.nextId + |added|;
        assert forall t :: t in tasks ==> t in m.tasks || t in added;
        if |added| > 0 then Ok((Manager(tasks, m.nextId + |added|, m.saved + [tasks]), |added|))
        else
          assert tasks == m.tasks;
          Ok((m, 0))
      case _ => Err(ImportFailed)
  }

  /** `tasks` renumbered consecutively from `nextId`. */
  function Renumber(tasks: seq<Task>, nextId: int): (r: seq<Task>)
    ensures |r| == |tasks|
    ensures forall i :: 0 <= i < |tasks| ==> r[i] == tasks[i].(id := nextId + i)
    decreases |tasks|
  {
    if tasks == [] then [] else [tasks[0].(id := nextId)] + Renumber(tasks[1..], nextId + 1)
  }

  /** Import of an export: when every exported task passes validation, all of
      them come back, in order, renumbered from the importer's `nextId`. */
  lemma {:induction false} ImportItemsOfEncoded(tasks: seq<Task>, nextId: int)
    requires forall t :: t in tasks ==> ValidTask(t)
    ensures ImportItems(EncodeAll(tasks), nextId) == Renumber(tasks, nextId)
    decreases |tasks|
  {
    if tasks != [] {
      ValidTaskDataOfEncode(tasks[0]);
      DecodeEncode(tasks[0], nextId);
      assert EncodeAll(tasks)[1..] == EncodeAll(tasks[1..]);
      assert forall t :: t in tasks[1..] ==> t in tasks;
      ImportItemsOfEncoded(tasks[1..], nextId + 1);
    }
  }

  /** `importTasks(exportTasks())` re-imports every task that passes
      validation, so an export of valid tasks comes back whole. */
  lemma ExportImportRoundTrip(source: Manager, target: Manager, now: int)
    requires forall t :: t in source.tasks ==> ValidTask(t)
    ensures ImportTasks(target, ExportTasks(source, now)).Ok?
    ensures ImportTasks(target, ExportTasks(source, now)).value.1 == |source.tasks|
    ensures ImportTasks(target, ExportTasks(source, now)).value.0.tasks
         == target.tasks + Renumber(source.tasks, target.nextId)
  {
    ImportItemsOfEncoded(source.tasks, target.nextId);
  }

  /** Every task `createTask` produces would survive an export and import. */
  lemma CreatedTaskPassesValidation(m: Manager, title: string, description: string, priority: string,
                                    category: string, dueDate: Option<int>, now: int)
    requires CreateTask(m, title, description, priority, category, dueDate, now).Ok?
    ensures ValidTaskData(EncodeTask(CreateTask(m, title, description, priority, category, dueDate, now).value.1))
  {
    ValidTaskDataOfEncode(CreateTask(m, title, description, priority, category, dueDate, now).value.1);
  }
}
