/** The project tracker's records: projects with their tasks and progress updates, the queries the
    pages are built from, and the field-wise edits of single records. */
module DataHandler {
  import opened Common

  /** '9999-12-31', the date that stands in for "no date", as a day number. */
  const FarFuture: Day := MaxDay

  /** The task status that counts as open. */
  const Active: string := "active"

  datatype Update = Update(id: string, timestamp: string, description: string)

  /** Dates are None when the stored value is missing, null or the empty string. */
  datatype Task = Task(
    id: string,
    description: string,
    additionalInfo: string,
    startDate: Option<Day>,
    targetCompletionDate: Option<Day>,
    actualCompletionDate: Option<Day>,
    status: string,
    updates: seq<Update>)

  datatype Project = Project(
    id: string,
    title: string,
    description: string,
    startDate: Option<Day>,
    targetCompletionDate: Option<Day>,
    actualCompletionDate: Option<Day>,
    status: string,
    updates: seq<Update>,
    tasks: seq<Task>)

  /** Index of the first project with the given id. */
  function ProjectIndex(ps: seq<Project>, id: string): (r: Option<nat>)
    ensures r.Some? ==> r.value < |ps| && ps[r.value].id == id
    ensures r.Some? ==> forall k :: 0 <= k < r.value ==> ps[k].id != id
    ensures r.None? ==> forall k :: 0 <= k < |ps| ==> ps[k].id != id
  {
    Find(ps, (p: Project) => p.id == id)
  }

  /** Index of the first task with the given id. */
  function TaskIndex(ts: seq<Task>, id: string): (r: Option<nat>)
    ensures r.Some? ==> r.value < |ts| && ts[r.value].id == id
    ensures r.Some? ==> forall k :: 0 <= k < r.value ==> ts[k].id != id
    ensures r.None? ==> forall k :: 0 <= k < |ts| ==> ts[k].id != id
  {
    Find(ts, (t: Task) => t.id == id)
  }

  // ---------------------------------------------------------------------------
  // get_project

  function HasStatus(status: string): Task -> bool {
    (t: Task) => t.status == status
  }

  /** `get_project`: the first project with the id, or None; when `taskStatus` is not empty (a falsy
      status means no filter) its task list is cut down to the tasks with that status, in order. */
  function GetProject(ps: seq<Project>, id: string, taskStatus: string := Active): (r: Option<Project>)
    ensures r.None? <==> forall k :: 0 <= k < |ps| ==> ps[k].id != id
    ensures r.Some? ==> ProjectIndex(ps, id).Some? && r.value.id == id
    ensures r.Some? ==> var p := ps[ProjectIndex(ps, id).value];
      && r.value == p.(tasks := r.value.tasks)
      && (taskStatus == "" ==> r.value.tasks == p.tasks)
      && (taskStatus != "" ==> r.value.tasks == Filter(p.tasks, HasStatus(taskStatus)))
      && (forall k :: 0 <= k < |r.value.tasks| ==> r.value.tasks[k] in p.tasks)
      && (taskStatus != "" ==> forall k :: 0 <= k < |r.value.tasks| ==> r.value.tasks[k].status == taskStatus)
      && (forall k :: 0 <= k < |p.tasks| && (taskStatus == "" || p.tasks[k].status == taskStatus) ==> p.tasks[k] in r.value.tasks)
  {
    match ProjectIndex(ps, id)
    case None => None
    case Some(i) =>
      var p := ps[i];
      FilterElements(p.tasks, HasStatus(taskStatus));
      if taskStatus != "" then Some(p.(tasks := Filter(p.tasks, HasStatus(taskStatus)))) else Some(p)
  }

  // ---------------------------------------------------------------------------
  // get_projects_by_category

  /** An active task with a target date. */
  predicate Schedulable(t: Task) {
    t.status == Active && t.targetCompletionDate.Some?
  }

  /** The earliest target date among the active tasks that have one. */
  function EarliestTarget(ts: seq<Task>): (r: Option<Day>)
    ensures r.None? <==> forall k :: 0 <= k < |ts| ==> !Schedulable(ts[k])
    ensures r.Some? ==> exists k :: 0 <= k < |ts| && Schedulable(ts[k]) && ts[k].targetCompletionDate.value == r.value
    ensures r.Some? ==> forall k :: 0 <= k < |ts| && Schedulable(ts[k]) ==> r.value <= ts[k].targetCompletionDate.value
  {
    if |ts| == 0 then None
    else
      var rest := EarliestTarget(ts[1..]);
      assert forall k :: 1 <= k < |ts| ==> ts[k] == ts[1..][k - 1];
      if !Schedulable(ts[0]) then rest
      else if rest.None? || ts[0].targetCompletionDate.value <= rest.value then ts[0].targetCompletionDate
      else rest
  }

  /** The `next_task_due_date` of a project: the earliest target date of its active tasks, or the
      far-future sentinel when none has one. */
  function NextTaskDueDate(ts: seq<Task>): Day {
    EarliestTarget(ts).GetOr(FarFuture)
  }

  /** The next due date is the target date of one of the active tasks and no later than any of them;
      it is the sentinel exactly when no active task has a target date (or one has the sentinel date). */
  lemma NextTaskDueDateIsEarliest(ts: seq<Task>)
    ensures (forall k :: 0 <= k < |ts| ==> !Schedulable(ts[k])) ==> NextTaskDueDate(ts) == FarFuture
    ensures forall k :: 0 <= k < |ts| && Schedulable(ts[k]) ==> NextTaskDueDate(ts) <= ts[k].targetCompletionDate.value
    ensures (exists k :: 0 <= k < |ts| && Schedulable(ts[k])) ==>
      exists k :: 0 <= k < |ts| && Schedulable(ts[k]) && ts[k].targetCompletionDate.value == NextTaskDueDate(ts)
  {
  }

  datatype CategorizedProject = CategorizedProject(project: Project, nextTaskDueDate: Day)

  function InCategory(category: string): Project -> bool {
    (p: Project) => p.status == category
  }

  /** The matching projects of one more stored project. */
  lemma CategoryStep(ps: seq<Project>, i: nat, category: string)
    requires i < |ps|
    ensures Filter(ps[..i + 1], InCategory(category))
         == Filter(ps[..i], InCategory(category)) + (if ps[i].status == category then [ps[i]] else [])
  {
    assert ps[..i + 1] == ps[..i] + [ps[i]];
    FilterAppend(ps[..i], [ps[i]], InCategory(category));
    assert [ps[i]][1..] == [];
  }

  /** `r` holds the projects of `matching`, in order, each with its next task due date. */
  predicate PairsWithDueDates(r: seq<CategorizedProject>, matching: seq<Project>) {
    && |r| == |matching|
    && forall k :: 0 <= k < |r| ==>
         r[k].project == matching[k] && r[k].nextTaskDueDate == NextTaskDueDate(matching[k].tasks)
  }

  lemma PairsWithDueDatesStep(r: seq<CategorizedProject>, matching: seq<Project>, p: Project)
    requires PairsWithDueDates(r, matching)
    ensures PairsWithDueDates(r + [CategorizedProject(p, NextTaskDueDate(p.tasks))], matching + [p])
  {
  }

  /** `get_projects_by_category`: the projects whose status is `category`, in stored order, each paired
      with its next task due date. */
  method GetProjectsByCategory(ps: seq<Project>, category: string) returns (r: seq<CategorizedProject>)
    ensures PairsWithDueDates(r, Filter(ps, InCategory(category)))
  {
    r := [];
    var i := 0;
    while i < |ps|
      invariant 0 <= i <= |ps|
      invariant PairsWithDueDates(r, Filter(ps[..i], InCategory(category)))
    {
      var project := ps[i];
      ghost var before := Filter(ps[..i], InCategory(category));
      CategoryStep(ps, i, category);
      if project.status == category {
        var due := NextTaskDueDate(project.tasks);
        PairsWithDueDatesStep(r, before, project);
        r := r + [CategorizedProject(project, due)];
      }
      i := i + 1;
    }
    assert ps[..i] == ps;
  }

  // ---------------------------------------------------------------------------
  // get_all_tasks

  /** One row of the task overview: a task with its project's id, title and status. */
  datatype TaskRow = TaskRow(
    projectId: string,
    projectTitle: string,
    projectStatus: string,
    taskId: string,
    description: string,
    targetCompletionDate: Option<Day>,
    status: string)

  function Row(p: Project, t: Task): TaskRow {
    TaskRow(p.id, p.title, p.status, t.id, t.description, t.targetCompletionDate, t.status)
  }

  /** A row passes the filters: an empty selection (None or an empty list) selects everything. */
  predicate Selected(row: TaskRow, projectStatuses: seq<string>, taskStatuses: seq<string>) {
    && (|projectStatuses| == 0 || row.projectStatus in projectStatuses)
    && (|taskStatuses| == 0 || row.status in taskStatuses)
  }

  /** The selected rows of project `p`'s tasks `ts`, in task order. */
  function SelectedTaskRows(p: Project, ts: seq<Task>, projectStatuses: seq<string>, taskStatuses: seq<string>): seq<TaskRow> {
    if |ts| == 0 then []
    else
      var row := Row(p, ts[|ts| - 1]);
      SelectedTaskRows(p, ts[..|ts| - 1], projectStatuses, taskStatuses)
        + (if Selected(row, projectStatuses, taskStatuses) then [row] else [])
  }

  /** The selected rows of all tasks of `ps`, project by project. */
  function SelectedRows(ps: seq<Project>, projectStatuses: seq<string>, taskStatuses: seq<string>): seq<TaskRow> {
    if |ps| == 0 then []
    else
      SelectedRows(ps[..|ps| - 1], projectStatuses, taskStatuses)
        + SelectedTaskRows(ps[|ps| - 1], ps[|ps| - 1].tasks, projectStatuses, taskStatuses)
  }

  lemma {:induction false} SelectedTaskRowsMembership(p: Project, ts: seq<Task>, projectStatuses: seq<string>,
                                                      taskStatuses: seq<string>, row: TaskRow)
    ensures row in SelectedTaskRows(p, ts, projectStatuses, taskStatuses) <==>
      Selected(row, projectStatuses, taskStatuses) && exists j :: 0 <= j < |ts| && row == Row(p, ts[j])
    decreases |ts|
  {
    if |ts| != 0 {
      var init := ts[..|ts| - 1];
      SelectedTaskRowsMembership(p, init, projectStatuses, taskStatuses, row);
      assert forall j :: 0 <= j < |init| ==> init[j] == ts[j];
      if exists j :: 0 <= j < |ts| && row == Row(p, ts[j]) {
        var j :| 0 <= j < |ts| && row == Row(p, ts[j]);
        if j < |init| {
          assert row == Row(p, init[j]);
        }
      }
    }
  }

  /** `get_all_tasks` keeps a task exactly when its project's status is selected (or no project status
      is) and its own status is selected (or no task status is). */
  lemma {:induction false} SelectedRowsMembership(ps: seq<Project>, projectStatuses: seq<string>,
                                                  taskStatuses: seq<string>, row: TaskRow)
    ensures row in SelectedRows(ps, projectStatuses, taskStatuses) <==>
      && Selected(row, projectStatuses, taskStatuses)
      && exists i, j :: 0 <= i < |ps| && 0 <= j < |ps[i].tasks| && row == Row(ps[i], ps[i].tasks[j])
    decreases |ps|
  {
    if |ps| != 0 {
      var init := ps[..|ps| - 1];
      var last := ps[|ps| - 1];
      SelectedRowsMembership(init, projectStatuses, taskStatuses, row);
      SelectedTaskRowsMembership(last, last.tasks, projectStatuses, taskStatuses, row);
      assert forall i :: 0 <= i < |init| ==> init[i] == ps[i];
      if exists i, j :: 0 <= i < |ps| && 0 <= j < |ps[i].tasks| && row == Row(ps[i], ps[i].tasks[j]) {
        var i, j :| 0 <= i < |ps| && 0 <= j < |ps[i].tasks| && row == Row(ps[i], ps[i].tasks[j]);
        if i < |init| {
          assert row == Row(init[i], init[i].tasks[j]);
        }
      }
    }
  }

  /** The sort key of `get_all_tasks`: the target date, or the sentinel when there is none. */
  function DueKey(row: TaskRow): Day {
    row.targetCompletionDate.GetOr(FarFuture)
  }

  predicate InOrder(a: TaskRow, b: TaskRow, descending: bool) {
    if descending then DueKey(a) >= DueKey(b) else DueKey(a) <= DueKey(b)
  }

  predicate SortedByDue(rows: seq<TaskRow>, descending: bool) {
    forall i, j :: 0 <= i < j < |rows| ==> InOrder(rows[i], rows[j], descending)
  }

  /** Puts `x` into `rows` before the first row it may precede: ahead of rows with an equal key,
      which came later in the input. */
  function Insert(x: TaskRow, rows: seq<TaskRow>, descending: bool): (r: seq<TaskRow>)
    ensures multiset(r) == multiset(rows) + multiset{x}
  {
    if |rows| == 0 then [x]
    else if InOrder(x, rows[0], descending) then [x] + rows
    else
      assert rows == [rows[0]] + rows[1..];
      [rows[0]] + Insert(x, rows[1..], descending)
  }

  /** `h` may precede every row of `rows`. */
  predicate PrecedesAll(h: TaskRow, rows: seq<TaskRow>, descending: bool) {
    forall k :: 0 <= k < |rows| ==> InOrder(h, rows[k], descending)
  }

  /** A row that may precede `x` and every row of `rows` may precede every row after inserting `x`. */
  lemma {:induction false} InsertKeepsPrecedes(h: TaskRow, x: TaskRow, rows: seq<TaskRow>, descending: bool)
    requires InOrder(h, x, descending) && PrecedesAll(h, rows, descending)
    ensures PrecedesAll(h, Insert(x, rows, descending), descending)
    decreases |rows|
  {
    if |rows| != 0 && !InOrder(x, rows[0], descending) {
      var tail := rows[1..];
      assert PrecedesAll(h, tail, descending) by {
        forall k | 0 <= k < |tail| ensures InOrder(h, tail[k], descending) {
          assert tail[k] == rows[k + 1];
        }
      }
      InsertKeepsPrecedes(h, x, tail, descending);
      var rest := Insert(x, tail, descending);
      var r := [rows[0]] + rest;
      forall k | 0 <= k < |r| ensures InOrder(h, r[k], descending) {
        if k > 0 {
          assert r[k] == rest[k - 1];
        }
      }
    }
  }

  /** Inserting into a sorted list keeps it sorted. */
  lemma {:induction false} InsertKeepsSorted(x: TaskRow, rows: seq<TaskRow>, descending: bool)
    requires SortedByDue(rows, descending)
    ensures SortedByDue(Insert(x, rows, descending), descending)
    decreases |rows|
  {
    if |rows| != 0 && !InOrder(x, rows[0], descending) {
      var tail := rows[1..];
      assert SortedByDue(tail, descending) by {
        forall i, j | 0 <= i < j < |tail| ensures InOrder(tail[i], tail[j], descending) {
          assert tail[i] == rows[i + 1] && tail[j] == rows[j + 1];
        }
      }
      assert PrecedesAll(rows[0], tail, descending) by {
        forall k | 0 <= k < |tail| ensures InOrder(rows[0], tail[k], descending) {
          assert tail[k] == rows[k + 1];
        }
      }
      InsertKeepsSorted(x, tail, descending);
      InsertKeepsPrecedes(rows[0], x, tail, descending);
      var rest := Insert(x, tail, descending);
      var r := [rows[0]] + rest;
      forall i, j | 0 <= i < j < |r| ensures InOrder(r[i], r[j], descending) {
        assert r[j] == rest[j - 1];
        if i > 0 {
          assert r[i] == rest[i - 1];
        }
      }
    }
  }

  /** The stable sort of `list.sort(key=..., reverse=descending)` on the due-date key. */
  function SortByDue(rows: seq<TaskRow>, descending: bool): (r: seq<TaskRow>)
    ensures multiset(r) == multiset(rows)
    ensures SortedByDue(r, descending)
  {
    if |rows| == 0 then []
    else
      assert rows == [rows[0]] + rows[1..];
      var sortedTail := SortByDue(rows[1..], descending);
      InsertKeepsSorted(rows[0], sortedTail, descending);
      Insert(rows[0], sortedTail, descending)
  }

  /** The rows whose sort key is `d`. */
  function KeyIs(d: Day): TaskRow -> bool {
    (row: TaskRow) => DueKey(row) == d
  }

  /** Inserting passes only rows with a different key, so among the rows with `x`'s key, `x` comes
      first, and the rows with any other key are untouched. */
  lemma {:induction false} InsertKeepsKeyOrder(x: TaskRow, rows: seq<TaskRow>, descending: bool, d: Day)
    ensures Filter(Insert(x, rows, descending), KeyIs(d))
         == (if DueKey(x) == d then [x] else []) + Filter(rows, KeyIs(d))
    decreases |rows|
  {
    var head := if DueKey(x) == d then [x] else [];
    if |rows| == 0 {
      assert Filter([x], KeyIs(d)) == head + Filter([x][1..], KeyIs(d));
      assert [x][1..] == [];
    } else if InOrder(x, rows[0], descending) {
      FilterConsStep(x, rows, d);
    } else {
      var rest := Insert(x, rows[1..], descending);
      assert Insert(x, rows, descending) == [rows[0]] + rest;
      InsertKeepsKeyOrder(x, rows[1..], descending, d);
      var first := if DueKey(rows[0]) == d then [rows[0]] else [];
      FilterConsStep(rows[0], rest, d);
      assert rows == [rows[0]] + rows[1..];
      FilterConsStep(rows[0], rows[1..], d);
      assert DueKey(rows[0]) != DueKey(x);
      SwapEmpty(first, head, Filter(rows[1..], KeyIs(d)));
    }
  }

  /** Of two lists, one of them empty, either may go first. */
  lemma SwapEmpty<T>(a: seq<T>, b: seq<T>, tail: seq<T>)
    requires a == [] || b == []
    ensures a + (b + tail) == b + (a + tail)
  {
    if a == [] {
      assert a + (b + tail) == b + tail == b + (a + tail);
    } else {
      assert a + (b + tail) == a + tail == b + (a + tail);
    }
  }

  /** One unfolding of the key filter on a list with a known first row. */
  lemma FilterConsStep(x: TaskRow, rows: seq<TaskRow>, d: Day)
    ensures Filter([x] + rows, KeyIs(d)) == (if DueKey(x) == d then [x] else []) + Filter(rows, KeyIs(d))
  {
    assert ([x] + rows)[0] == x && ([x] + rows)[1..] == rows;
  }

  /** The sort is stable, as `list.sort` is in both directions: the rows sharing any one key come out
      in their input order. */
  lemma {:induction false} SortByDueIsStable(rows: seq<TaskRow>, descending: bool, d: Day)
    ensures Filter(SortByDue(rows, descending), KeyIs(d)) == Filter(rows, KeyIs(d))
    decreases |rows|
  {
    if |rows| != 0 {
      SortByDueIsStable(rows[1..], descending, d);
      InsertKeepsKeyOrder(rows[0], SortByDue(rows[1..], descending), descending, d);
    }
  }

  /** `get_all_tasks`: the rows of the selected tasks, project by project; sorted by due date
      (ascending unless `order` is "desc", missing dates last in ascending order) when `sortBy` is
      "due_date", and left in that order otherwise. */
  method GetAllTasks(ps: seq<Project>, sortBy: string := "due_date", order: string := "asc",
                     projectStatuses: seq<string> := [], taskStatuses: seq<string> := []) returns (r: seq<TaskRow>)
    ensures multiset(r) == multiset(SelectedRows(ps, projectStatuses, taskStatuses))
    ensures sortBy == "due_date" ==> SortedByDue(r, order == "desc")
    ensures sortBy == "due_date" ==> r == SortByDue(SelectedRows(ps, projectStatuses, taskStatuses), order == "desc")
    ensures sortBy != "due_date" ==> r == SelectedRows(ps, projectStatuses, taskStatuses)
  {
    var all: seq<TaskRow> := [];
    var i := 0;
    while i < |ps|
      invariant 0 <= i <= |ps|
      invariant all == SelectedRows(ps[..i], projectStatuses, taskStatuses)
    {
      var project := ps[i];
      var j := 0;
      while j < |project.tasks|
        invariant 0 <= j <= |project.tasks|
        invariant all == SelectedRows(ps[..i], projectStatuses, taskStatuses)
                         + SelectedTaskRows(project, project.tasks[..j], projectStatuses, taskStatuses)
      {
        var row := Row(project, project.tasks[j]);
        assert project.tasks[..j + 1][..j] == project.tasks[..j];
        j := j + 1;
        if |projectStatuses| != 0 && row.projectStatus !in projectStatuses {
          continue;
        }
        if |taskStatuses| != 0 && row.status !in taskStatuses {
          continue;
        }
        all := all + [row];
      }
      assert project.tasks[..j] == project.tasks;
      assert ps[..i + 1][..i] == ps[..i];
      i := i + 1;
    }
    assert ps[..i] == ps;
    if sortBy == "due_date" {
      all := SortByDue(all, order == "desc");
    }
    r := all;
  }

  // ---------------------------------------------------------------------------
  // get_completion_data

  datatype CompletionKind = ProjectDone | TaskDone

  /** One finished project or task for the activity calendar. */
  datatype Completion = Completion(kind: CompletionKind, date: Day, title: string)

  /** A task's entry, when it has a completion date. */
  function TaskEntry(t: Task): seq<Completion> {
    if t.actualCompletionDate.Some? then [Completion(TaskDone, t.actualCompletionDate.value, t.description)] else []
  }

  function TaskCompletions(ts: seq<Task>): seq<Completion> {
    if |ts| == 0 then [] else TaskCompletions(ts[..|ts| - 1]) + TaskEntry(ts[|ts| - 1])
  }

  /** The project's own entry, when it has a completion date. */
  function OwnCompletion(p: Project): seq<Completion> {
    if p.actualCompletionDate.Some? then [Completion(ProjectDone, p.actualCompletionDate.value, p.title)] else []
  }

  function ProjectCompletions(p: Project): seq<Completion> {
    OwnCompletion(p) + TaskCompletions(p.tasks)
  }

  function Completions(ps: seq<Project>): seq<Completion> {
    if |ps| == 0 then [] else Completions(ps[..|ps| - 1]) + ProjectCompletions(ps[|ps| - 1])
  }

  lemma TaskCompletionsStep(ts: seq<Task>, j: nat)
    requires j < |ts|
    ensures TaskCompletions(ts[..j + 1]) == TaskCompletions(ts[..j]) + TaskEntry(ts[j])
  {
    assert ts[..j + 1][..j] == ts[..j];
  }

  lemma CompletionsStep(ps: seq<Project>, i: nat)
    requires i < |ps|
    ensures Completions(ps[..i + 1]) == Completions(ps[..i]) + OwnCompletion(ps[i]) + TaskCompletions(ps[i].tasks)
  {
    assert ps[..i + 1][..i] == ps[..i];
  }

  /** The task loop of `get_completion_data`: appends an entry for each task with a completion date. */
  method AppendTaskCompletions(head: seq<Completion>, ts: seq<Task>) returns (r: seq<Completion>)
    ensures r == head + TaskCompletions(ts)
  {
    r := head;
    var j := 0;
    while j < |ts|
      invariant 0 <= j <= |ts|
      invariant r == head + TaskCompletions(ts[..j])
    {
      var task := ts[j];
      TaskCompletionsStep(ts, j);
      if task.actualCompletionDate.Some? {
        r := r + [Completion(TaskDone, task.actualCompletionDate.value, task.description)];
      }
      assert r == head + (TaskCompletions(ts[..j]) + TaskEntry(task));
      j := j + 1;
    }
    assert ts[..j] == ts;
  }

  /** `get_completion_data`: each project's completion (if it has a date) followed by those of its tasks. */
  method GetCompletionData(ps: seq<Project>) returns (r: seq<Completion>)
    ensures r == Completions(ps)
  {
    r := [];
    var i := 0;
    while i < |ps|
      invariant 0 <= i <= |ps|
      invariant r == Completions(ps[..i])
    {
      var project := ps[i];
      if project.actualCompletionDate.Some? {
        r := r + [Completion(ProjectDone, project.actualCompletionDate.value, project.title)];
      }
      assert r == Completions(ps[..i]) + OwnCompletion(project);
      r := AppendTaskCompletions(r, project.tasks);
      CompletionsStep(ps, i);
      i := i + 1;
    }
    assert ps[..i] == ps;
  }

  lemma {:induction false} TaskCompletionsMembership(ts: seq<Task>, c: Completion)
    ensures c in TaskCompletions(ts) <==>
      exists j :: 0 <= j < |ts| && ts[j].actualCompletionDate.Some?
        && c == Completion(TaskDone, ts[j].actualCompletionDate.value, ts[j].description)
    decreases |ts|
  {
    if |ts| != 0 {
      var init := ts[..|ts| - 1];
      TaskCompletionsMembership(init, c);
      assert forall j :: 0 <= j < |init| ==> init[j] == ts[j];
    }
  }

  /** `c` is the entry of a project of `ps` that has a completion date. */
  predicate IsProjectEntry(ps: seq<Project>, c: Completion) {
    exists i :: 0 <= i < |ps| && ps[i].actualCompletionDate.Some?
      && c == Completion(ProjectDone, ps[i].actualCompletionDate.value, ps[i].title)
  }

  /** `c` is the entry of a task of a project of `ps` that has a completion date. */
  predicate IsTaskEntry(ps: seq<Project>, c: Completion) {
    exists i, j :: 0 <= i < |ps| && 0 <= j < |ps[i].tasks| && ps[i].tasks[j].actualCompletionDate.Some?
      && c == Completion(TaskDone, ps[i].tasks[j].actualCompletionDate.value, ps[i].tasks[j].description)
  }

  lemma ProjectEntrySplit(ps: seq<Project>, c: Completion)
    requires |ps| != 0
    ensures IsProjectEntry(ps, c) <==> IsProjectEntry(ps[..|ps| - 1], c) || c in OwnCompletion(ps[|ps| - 1])
  {
  }

  lemma TaskEntrySplit(ps: seq<Project>, c: Completion)
    requires |ps| != 0
    ensures IsTaskEntry(ps, c) <==> IsTaskEntry(ps[..|ps| - 1], c) || c in TaskCompletions(ps[|ps| - 1].tasks)
  {
    var init := ps[..|ps| - 1];
    var last := ps[|ps| - 1];
    TaskCompletionsMembership(last.tasks, c);
    assert forall i :: 0 <= i < |init| ==> init[i] == ps[i];
    if IsTaskEntry(ps, c) {
      var i, j :| 0 <= i < |ps| && 0 <= j < |ps[i].tasks| && ps[i].tasks[j].actualCompletionDate.Some?
        && c == Completion(TaskDone, ps[i].tasks[j].actualCompletionDate.value, ps[i].tasks[j].description);
      if i < |init| {
        assert init[i] == ps[i];
      }
    }
  }

  /** The completion data holds exactly one entry per dated project and per dated task: a project entry
      carries the project's title, a task entry the task's description. */
  lemma {:induction false} CompletionsMembership(ps: seq<Project>, c: Completion)
    ensures c in Completions(ps) <==> IsProjectEntry(ps, c) || IsTaskEntry(ps, c)
    decreases |ps|
  {
    if |ps| != 0 {
      var init := ps[..|ps| - 1];
      var last := ps[|ps| - 1];
      CompletionsMembership(init, c);
      ProjectEntrySplit(ps, c);
      TaskEntrySplit(ps, c);
      assert Completions(ps) == Completions(init) + OwnCompletion(last) + TaskCompletions(last.tasks);
    }
  }

  // ---------------------------------------------------------------------------
  // Edits of single records, as functions of the stored list

  function NewProject(id: string, title: string, description: string, startDate: Option<Day>,
                      targetCompletionDate: Option<Day>, status: string := Active): Project {
    Project(id, title, description, startDate, targetCompletionDate, None, status, [], [])
  }

  function NewTask(id: string, description: string, additionalInfo: string, startDate: Option<Day>,
                   targetCompletionDate: Option<Day>, actualCompletionDate: Option<Day>, status: string): Task {
    Task(id, description, additionalInfo, startDate, targetCompletionDate, actualCompletionDate, status, [])
  }

  /** The list after `update_project`: the listed fields of the first project with the id overwritten. */
  function ProjectUpdated(ps: seq<Project>, id: string, title: string, description: string, status: string,
                          startDate: Option<Day>, targetCompletionDate: Option<Day>,
                          actualCompletionDate: Option<Day>, updates: seq<Update>): (r: seq<Project>)
    ensures |r| == |ps|
    ensures ProjectIndex(ps, id).None? ==> r == ps
    ensures forall k :: 0 <= k < |ps| && ProjectIndex(ps, id) != Some(k) ==> r[k] == ps[k]
    ensures forall k :: 0 <= k < |ps| ==> r[k].id == ps[k].id && r[k].tasks == ps[k].tasks
    ensures ProjectIndex(ps, id).Some? ==> var p := r[ProjectIndex(ps, id).value];
      && p.title == title && p.description == description && p.status == status
      && p.startDate == startDate && p.targetCompletionDate == targetCompletionDate
      && p.actualCompletionDate == actualCompletionDate && p.updates == updates
  {
    match ProjectIndex(ps, id)
    case None => ps
    case Some(i) =>
      ps[i := ps[i].(title := title, description := description, status := status, startDate := startDate,
                     targetCompletionDate := targetCompletionDate,
                     actualCompletionDate := actualCompletionDate, updates := updates)]
  }

  /** The list after `create_task`: the task appended to the first project with the id, if any. */
  function TaskCreated(ps: seq<Project>, projectId: string, task: Task): (r: seq<Project>)
    ensures |r| == |ps|
    ensures ProjectIndex(ps, projectId).None? ==> r == ps
    ensures forall k :: 0 <= k < |ps| && ProjectIndex(ps, projectId) != Some(k) ==> r[k] == ps[k]
    ensures ProjectIndex(ps, projectId).Some? ==> var i := ProjectIndex(ps, projectId).value;
      && r[i].tasks == ps[i].tasks + [task]
      && r[i].(tasks := ps[i].tasks) == ps[i]
  {
    match ProjectIndex(ps, projectId)
    case None => ps
    case Some(i) => ps[i := ps[i].(tasks := ps[i].tasks + [task])]
  }

  /** The list after `update_task`: the listed fields of the first task with `taskId` in the first
      project with `projectId` overwritten. */
  function TaskUpdated(ps: seq<Project>, projectId: string, taskId: string, description: string,
                       additionalInfo: string, status: string, startDate: Option<Day>,
                       targetCompletionDate: Option<Day>, actualCompletionDate: Option<Day>): (r: seq<Project>)
    ensures |r| == |ps|
    ensures forall k :: 0 <= k < |ps| && ProjectIndex(ps, projectId) != Some(k) ==> r[k] == ps[k]
    ensures ProjectIndex(ps, projectId).Some? ==> var i := ProjectIndex(ps, projectId).value;
      && r[i].(tasks := ps[i].tasks) == ps[i]
      && |r[i].tasks| == |ps[i].tasks|
      && (TaskIndex(ps[i].tasks, taskId).None? ==> r == ps)
      && (forall k :: 0 <= k < |ps[i].tasks| && TaskIndex(ps[i].tasks, taskId) != Some(k) ==> r[i].tasks[k] == ps[i].tasks[k])
      && (forall k :: 0 <= k < |ps[i].tasks| ==> r[i].tasks[k].id == ps[i].tasks[k].id && r[i].tasks[k].updates == ps[i].tasks[k].updates)
      && (TaskIndex(ps[i].tasks, taskId).Some? ==> var t := r[i].tasks[TaskIndex(ps[i].tasks, taskId).value];
            && t.description == description && t.additionalInfo == additionalInfo && t.status == status
            && t.startDate == startDate && t.targetCompletionDate == targetCompletionDate
            && t.actualCompletionDate == actualCompletionDate)
    ensures ProjectIndex(ps, projectId).None? ==> r == ps
  {
    match ProjectIndex(ps, projectId)
    case None => ps
    case Some(i) =>
      match TaskIndex(ps[i].tasks, taskId)
      case None => ps
      case Some(j) =>
        var t := ps[i].tasks[j].(description := description, additionalInfo := additionalInfo, status := status,
                                 startDate := startDate, targetCompletionDate := targetCompletionDate,
                                 actualCompletionDate := actualCompletionDate);
        ps[i := ps[i].(tasks := ps[i].tasks[j := t])]
  }

  /** The list after `add_project_update`: the update appended to the first project with the id, if any. */
  function UpdateAdded(ps: seq<Project>, projectId: string, update: Update): (r: seq<Project>)
    ensures |r| == |ps|
    ensures ProjectIndex(ps, projectId).None? ==> r == ps
    ensures forall k :: 0 <= k < |ps| && ProjectIndex(ps, projectId) != Some(k) ==> r[k] == ps[k]
    ensures ProjectIndex(ps, projectId).Some? ==> var i := ProjectIndex(ps, projectId).value;
      && r[i].updates == ps[i].updates + [update]
      && r[i].(updates := ps[i].updates) == ps[i]
  {
    match ProjectIndex(ps, projectId)
    case None => ps
    case Some(i) => ps[i := ps[i].(updates := ps[i].updates + [update])]
  }

  function UpdateIdIsNot(id: string): Update -> bool {
    (u: Update) => u.id != id
  }

  /** The list after `delete_project_update`: every update with the id dropped from the first project
      with `projectId`; the other updates stay, in order. */
  function UpdateDeleted(ps: seq<Project>, projectId: string, updateId: string): (r: seq<Project>)
    ensures |r| == |ps|
    ensures ProjectIndex(ps, projectId).None? ==> r == ps
    ensures forall k :: 0 <= k < |ps| && ProjectIndex(ps, projectId) != Some(k) ==> r[k] == ps[k]
    ensures ProjectIndex(ps, projectId).Some? ==> var i := ProjectIndex(ps, projectId).value;
      && r[i].(updates := ps[i].updates) == ps[i]
      && r[i].updates == Filter(ps[i].updates, UpdateIdIsNot(updateId))
      && (forall k :: 0 <= k < |r[i].updates| ==> r[i].updates[k].id != updateId)
      && (forall k :: 0 <= k < |ps[i].updates| && ps[i].updates[k].id != updateId ==> ps[i].updates[k] in r[i].updates)
  {
    match ProjectIndex(ps, projectId)
    case None => ps
    case Some(i) =>
      FilterElements(ps[i].updates, UpdateIdIsNot(updateId));
      ps[i := ps[i].(updates := Filter(ps[i].updates, UpdateIdIsNot(updateId)))]
  }

  /** Edits that keep every project's id keep the position of the first project with a given id. */
  lemma SameIdsSameIndex(ps: seq<Project>, qs: seq<Project>, id: string)
    requires |ps| == |qs|
    requires forall k :: 0 <= k < |ps| ==> qs[k].id == ps[k].id
    ensures ProjectIndex(qs, id) == ProjectIndex(ps, id)
  {
  }

  /** Overwriting a project's fields a second time with the same values changes nothing. */
  lemma UpdateProjectIsIdempotent(ps: seq<Project>, id: string, title: string, description: string, status: string,
                                  startDate: Option<Day>, targetCompletionDate: Option<Day>,
                                  actualCompletionDate: Option<Day>, updates: seq<Update>)
    ensures var once := ProjectUpdated(ps, id, title, description, status, startDate, targetCompletionDate,
                                       actualCompletionDate, updates);
            ProjectUpdated(once, id, title, description, status, startDate, targetCompletionDate,
                           actualCompletionDate, updates) == once
  {
  }

  /** Overwriting a task's fields a second time with the same values changes nothing. */
  lemma UpdateTaskIsIdempotent(ps: seq<Project>, projectId: string, taskId: string, description: string,
                               additionalInfo: string, status: string, startDate: Option<Day>,
                               targetCompletionDate: Option<Day>, actualCompletionDate: Option<Day>)
    ensures var once := TaskUpdated(ps, projectId, taskId, description, additionalInfo, status, startDate,
                                    targetCompletionDate, actualCompletionDate);
            TaskUpdated(once, projectId, taskId, description, additionalInfo, status, startDate,
                        targetCompletionDate, actualCompletionDate) == once
  {
    var once := TaskUpdated(ps, projectId, taskId, description, additionalInfo, status, startDate,
                            targetCompletionDate, actualCompletionDate);
    SameIdsSameIndex(ps, once, projectId);
    match ProjectIndex(ps, projectId)
    case None =>
    case Some(i) =>
      match TaskIndex(ps[i].tasks, taskId)
      case None =>
      case Some(j) =>
        assert TaskIndex(once[i].tasks, taskId) == Some(j) by {
          assert once[i].tasks[j].id == taskId;
        }
        var t := once[i].tasks[j];
        assert t.(description := description, additionalInfo := additionalInfo, status := status,
                  startDate := startDate, targetCompletionDate := targetCompletionDate,
                  actualCompletionDate := actualCompletionDate) == t;
        assert once[i].(tasks := once[i].tasks[j := t]) == once[i];
  }

  /** Deleting an update a second time changes nothing: no update with that id is left. */
  lemma DeleteUpdateIsIdempotent(ps: seq<Project>, projectId: string, updateId: string)
    ensures UpdateDeleted(UpdateDeleted(ps, projectId, updateId), projectId, updateId) == UpdateDeleted(ps, projectId, updateId)
  {
    var once := UpdateDeleted(ps, projectId, updateId);
    SameIdsSameIndex(ps, once, projectId);
    match ProjectIndex(ps, projectId)
    case None =>
    case Some(i) =>
      var kept := once[i].updates;
      forall x | x in kept ensures UpdateIdIsNot(updateId)(x) {
        var k :| 0 <= k < |kept| && kept[k] == x;
      }
      FilterKeepsAll(kept, UpdateIdIsNot(updateId));
      assert once[i].(updates := Filter(kept, UpdateIdIsNot(updateId))) == once[i];
  }

  // ---------------------------------------------------------------------------
  // The store

  /** The project file, held in memory: `load_data` reads `projects`, `save_data` assigns it. */
  class ProjectStore {
    /** The stored projects in insertion order. */
    var projects: seq<Project>

    /** A missing or unreadable file loads as an empty project list. */
    constructor ()
      ensures projects == []
    {
      projects := [];
    }

    /** `create_project`: appends a project with no completion date, no updates and no tasks; `id` stands
        for the generated uuid. */
    method CreateProject(title: string, description: string, startDate: Option<Day>,
                         targetCompletionDate: Option<Day>, status: string := Active, id: string) returns (projectId: string)
      modifies this
      ensures projectId == id
      ensures projects == old(projects) + [NewProject(id, title, description, startDate, targetCompletionDate, status)]
    {
      var data := projects;
      data := data + [NewProject(id, title, description, startDate, targetCompletionDate, status)];
      projects := data;
      projectId := id;
    }

    /** `update_project`: overwrites the listed fields of the first project with the id. */
    method UpdateProject(id: string, title: string, description: string, status: string, startDate: Option<Day>,
                         targetCompletionDate: Option<Day>, actualCompletionDate: Option<Day>, updates: seq<Update>)
      modifies this
      ensures projects == ProjectUpdated(old(projects), id, title, description, status, startDate,
                                         targetCompletionDate, actualCompletionDate, updates)
    {
      var data := projects;
      var found := ProjectIndex(data, id);
      if found.Some? {
        var project := data[found.value];
        project := project.(title := title);
        project := project.(description := description);
        project := project.(status := status);
        project := project.(startDate := startDate);
        project := project.(targetCompletionDate := targetCompletionDate);
        project := project.(actualCompletionDate := actualCompletionDate);
        project := project.(updates := updates);
        data := data[found.value := project];
        projects := data;
      }
    }

    /** `create_task`: appends a task with no updates to the first project with the id and returns the new
        task's id (`id`, the generated uuid), or None when there is no such project. */
    method CreateTask(projectId: string, description: string, additionalInfo: string, startDate: Option<Day>,
                      targetCompletionDate: Option<Day>, actualCompletionDate: Option<Day>, status: string,
                      id: string) returns (taskId: Option<string>)
      modifies this
      ensures taskId.Some? <==> ProjectIndex(old(projects), projectId).Some?
      ensures taskId.Some? ==> taskId.value == id
      ensures projects == TaskCreated(old(projects), projectId,
                                      NewTask(id, description, additionalInfo, startDate, targetCompletionDate,
                                              actualCompletionDate, status))
    {
      var data := projects;
      var found := ProjectIndex(data, projectId);
      taskId := None;
      if found.Some? {
        var task := NewTask(id, description, additionalInfo, startDate, targetCompletionDate,
                            actualCompletionDate, status);
        var project := data[found.value];
        project := project.(tasks := project.tasks + [task]);
        data := data[found.value := project];
        projects := data;
        taskId := Some(id);
      }
    }

    /** `update_task`: overwrites the listed fields of the first task with `taskId` in the first project
        with `projectId`. */
    method UpdateTask(projectId: string, taskId: string, description: string, additionalInfo: string,
                      status: string, startDate: Option<Day>, targetCompletionDate: Option<Day>,
                      actualCompletionDate: Option<Day>)
      modifies this
      ensures projects == TaskUpdated(old(projects), projectId, taskId, description, additionalInfo, status,
                                      startDate, targetCompletionDate, actualCompletionDate)
    {
      var data := projects;
      var found := ProjectIndex(data, projectId);
      if found.Some? {
        var project := data[found.value];
        var foundTask := TaskIndex(project.tasks, taskId);
        if foundTask.Some? {
          var task := project.tasks[foundTask.value];
          task := task.(description := description);
          task := task.(additionalInfo := additionalInfo);
          task := task.(status := status);
          task := task.(startDate := startDate);
          task := task.(targetCompletionDate := targetCompletionDate);
          task := task.(actualCompletionDate := actualCompletionDate);
          project := project.(tasks := project.tasks[foundTask.value := task]);
          data := data[found.value := project];
          projects := data;
        }
      }
    }

    /** `add_project_update`: appends an update to the first project with the id; `id` and `timestamp`
        stand for the generated uuid and the current time. */
    method AddProjectUpdate(projectId: string, text: string, timestamp: string, id: string)
      modifies this
      ensures projects == UpdateAdded(old(projects), projectId, Update(id, timestamp, text))
    {
      var data := projects;
      var found := ProjectIndex(data, projectId);
      if found.Some? {
        var project := data[found.value];
        project := project.(updates := project.updates + [Update(id, timestamp, text)]);
        data := data[found.value := project];
        projects := data;
      }
    }

    /** `delete_project_update`: drops the updates with the id from the first project with `projectId`. */
    method DeleteProjectUpdate(projectId: string, updateId: string)
      modifies this
      ensures projects == UpdateDeleted(old(projects), projectId, updateId)
    {
      var data := projects;
      var found := ProjectIndex(data, projectId);
      if found.Some? {
        var project := data[found.value];
        project := project.(updates := Filter(project.updates, UpdateIdIsNot(updateId)));
        data := data[found.value := project];
        projects := data;
      }
    }
  }
}
