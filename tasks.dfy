/** The task board (src/components/tasks.tsx): status and category
    filter, per-status counts, the completion percentage, and the reducers
    that create, toggle, delete and re-grade tasks. Every reducer builds a
    new list, so each is a function here. */
module Tasks {
  import opened Wrappers
  import opened Text
  import opened Arrays

  datatype Status = Pending | InProgress | Completed

  /** The status as the page's strings spell it. */
  function StatusName(s: Status): (r: string)
    ensures r in ["pending", "in-progress", "completed"]
  {
    match s
    case Pending => "pending"
    case InProgress => "in-progress"
    case Completed => "completed"
  }

  lemma StatusNameInjective(a: Status, b: Status)
    ensures StatusName(a) == StatusName(b) ==> a == b
  {
    if a != b {
      assert StatusName(a)[0] != StatusName(b)[0] || |StatusName(a)| != |StatusName(b)|;
    }
  }

  datatype Task = Task(
    id: int,
    title: string,
    description: string,
    priority: string,
    status: Status,
    dueDate: string,
    category: string,
    completed: bool,
    progress: int)

  /** The status that a progress value stands for, as `updateTaskProgress`
      derives it. */
  function StatusFor(progress: int): (r: Status)
    ensures r == Completed <==> progress == 100
    ensures r == InProgress <==> progress > 0 && progress != 100
    ensures r == Pending <==> progress <= 0
  {
    if progress == 100 then Completed else if progress > 0 then InProgress else Pending
  }

  /** The record invariant: the status is the one the progress stands for,
      and `completed` is set exactly for completed tasks. */
  predicate Consistent(t: Task)
  {
    t.status == StatusFor(t.progress) && t.completed == (t.status == Completed)
  }

  predicate AllConsistent(tasks: seq<Task>)
  {
    forall i :: 0 <= i < |tasks| ==> Consistent(tasks[i])
  }

  /** In a consistent task, `completed` holds exactly for status
      "completed", and then the progress is 100. */
  lemma ConsistentMeans(t: Task)
    requires Consistent(t)
    ensures t.completed <==> t.status == Completed
    ensures t.completed ==> t.progress == 100
  {
  }

  /** `filteredTasks`' test. */
  predicate TaskMatches(t: Task, selectedStatus: string, selectedCategory: string)
  {
    (selectedStatus == "all" || StatusName(t.status) == selectedStatus)
    && (selectedCategory == "All" || t.category == selectedCategory)
  }

  function FilteredTasks(tasks: seq<Task>, selectedStatus: string, selectedCategory: string): (r: seq<Task>)
    ensures forall t :: t in r <==> t in tasks && TaskMatches(t, selectedStatus, selectedCategory)
    ensures IsSubseq(r, tasks)
  {
    var p := (t: Task) => TaskMatches(t, selectedStatus, selectedCategory);
    FilterMembers(p, tasks);
    FilterIsSubseq(p, tasks);
    Filter(p, tasks)
  }

  predicate HasStatus(t: Task, s: Status)
  {
    t.status == s
  }

  /** One entry of `tasksByStatus`: `tasks.filter(t => t.status === s).length`. */
  function CountStatus(tasks: seq<Task>, s: Status): (r: nat)
    ensures r <= |tasks|
  {
    |Filter((t: Task) => HasStatus(t, s), tasks)|
  }

  /** Every task has exactly one of the three statuses, so the counts add
      up to the number of tasks. */
  lemma {:induction false} CountsSum(tasks: seq<Task>)
    ensures CountStatus(tasks, Pending) + CountStatus(tasks, InProgress) + CountStatus(tasks, Completed) == |tasks|
  {
    if tasks != [] {
      CountsSum(tasks[1..]);
    }
  }

  /** Multiplying by a non-negative factor keeps the order. */
  lemma MulMono(b: int, x: int, y: int)
    requires b >= 0 && x <= y
    ensures b * x <= b * y
  {
    assert b * y - b * x == b * (y - x);
  }

  /** An integer bracketed by the same multiples of a positive step is unique. */
  lemma BracketUnique(b: int, a: int, q: int, k: int)
    requires b > 0
    requires b * q <= a < b * (q + 1)
    requires b * k <= a < b * (k + 1)
    ensures q == k
  {
    if q < k {
      MulMono(b, q + 1, k);
    } else if k < q {
      MulMono(b, k + 1, q);
    }
  }

  /** `Math.round(c / n * 100)` on exact rationals: the integer nearest to
      100c/n, halves rounded up, that is r - 1/2 <= 100c/n < r + 1/2. */
  function RoundedPercent(c: nat, n: nat): (r: int)
    requires 0 < n && c <= n
    ensures 0 <= r <= 100
    ensures 2 * n * r <= 200 * c + n < 2 * n * (r + 1)
  {
    var a, b := 200 * c + n, 2 * n;
    var q := a / b;
    assert a == b * q + a % b;
    assert b * q <= a < b * (q + 1);
    assert q <= 100 by {
      if q > 100 {
        MulMono(b, 101, q);
      }
    }
    q
  }

  /** `completionRate`: the completed share in whole percent. The empty
      board divides by zero and the page shows NaN; that is None here. */
  function CompletionRate(tasks: seq<Task>): (r: Option<int>)
    ensures r.None? <==> tasks == []
    ensures r.Some? ==> 0 <= r.value <= 100
    ensures r.Some? ==>
              var c, n := CountStatus(tasks, Completed), |tasks|;
              2 * n * r.value <= 200 * c + n < 2 * n * (r.value + 1)
  {
    if tasks == [] then None
    else Some(RoundedPercent(CountStatus(tasks, Completed), |tasks|))
  }

  /** A board with every task completed shows 100, one with none completed 0. */
  lemma CompletionRateExtremes(tasks: seq<Task>)
    requires tasks != []
    ensures CountStatus(tasks, Completed) == |tasks| ==> CompletionRate(tasks) == Some(100)
    ensures CountStatus(tasks, Completed) == 0 ==> CompletionRate(tasks) == Some(0)
  {
    var c, n := CountStatus(tasks, Completed), |tasks|;
    var r := RoundedPercent(c, n);
    if c == n {
      BracketUnique(2 * n, 200 * c + n, r, 100);
    }
    if c == 0 {
      BracketUnique(2 * n, 200 * c + n, r, 0);
    }
  }

  datatype TaskDraft = TaskDraft(title: string, description: string, priority: string, category: string, dueDate: string)

  /** The form after a reset; the due date is today's date, a parameter. */
  function EmptyTaskDraft(today: string): TaskDraft
  {
    TaskDraft("", "", "medium", "Work", today)
  }

  datatype TasksState = TasksState(tasks: seq<Task>, draft: TaskDraft, isCreating: bool)

  /** `handleCreateTask`: with a non-blank title the new task goes first,
      pending at progress 0; the title is kept as typed, untrimmed. The
      form is reset and closed. A blank title changes nothing. */
  function CreateTask(st: TasksState, newId: int, today: string): (r: TasksState)
    ensures Blank(st.draft.title) ==> r == st
    ensures !Blank(st.draft.title) ==>
              && |r.tasks| == |st.tasks| + 1 && r.tasks[1..] == st.tasks
              && r.tasks[0] == Task(newId, st.draft.title, st.draft.description, st.draft.priority,
                                    Pending, st.draft.dueDate, st.draft.category, false, 0)
              && r.draft == EmptyTaskDraft(today) && !r.isCreating
  {
    var d := st.draft;
    if Trim(d.title) != "" then
      var t := Task(newId, d.title, d.description, d.priority, Pending, d.dueDate, d.category, false, 0);
      TasksState([t] + st.tasks, EmptyTaskDraft(today), false)
    else
      st
  }

  /** Creating keeps the record invariant. */
  lemma CreateTaskConsistent(st: TasksState, newId: int, today: string)
    requires AllConsistent(st.tasks)
    ensures AllConsistent(CreateTask(st, newId, today).tasks)
  {
    var r := CreateTask(st, newId, today).tasks;
    if !Blank(st.draft.title) {
      forall i | 0 <= i < |r|
        ensures Consistent(r[i])
      {
        if i > 0 {
          assert r[i] == st.tasks[i - 1];
        }
      }
    }
  }

  /** The toggled form of one task. */
  function Toggled(t: Task): Task
  {
    t.(completed := !t.completed,
       status := if !t.completed then Completed else Pending,
       progress := if !t.completed then 100 else 0)
  }

  /** `toggleTask`: an open task becomes completed at 100, a completed one
      pending at 0; tasks with other ids are untouched. */
  function ToggleTask(tasks: seq<Task>, id: int): (r: seq<Task>)
    ensures |r| == |tasks|
    ensures forall i :: 0 <= i < |r| && tasks[i].id != id ==> r[i] == tasks[i]
    ensures forall i :: 0 <= i < |r| && tasks[i].id == id && !tasks[i].completed ==>
              r[i] == tasks[i].(completed := true, status := Completed, progress := 100)
    ensures forall i :: 0 <= i < |r| && tasks[i].id == id && tasks[i].completed ==>
              r[i] == tasks[i].(completed := false, status := Pending, progress := 0)
  {
    seq(|tasks|, i requires 0 <= i < |tasks| => if tasks[i].id == id then Toggled(tasks[i]) else tasks[i])
  }

  /** Toggling keeps the record invariant. */
  lemma ToggleTaskConsistent(tasks: seq<Task>, id: int)
    requires AllConsistent(tasks)
    ensures AllConsistent(ToggleTask(tasks, id))
  {
    var r := ToggleTask(tasks, id);
    assert forall i :: 0 <= i < |r| ==> Consistent(r[i]);
  }

  /** Toggling twice restores a task that was at 0 or at 100. */
  lemma ToggleTwice(tasks: seq<Task>, id: int)
    requires AllConsistent(tasks)
    requires forall i :: 0 <= i < |tasks| && tasks[i].id == id ==> tasks[i].progress in {0, 100}
    ensures ToggleTask(ToggleTask(tasks, id), id) == tasks
  {
    var once := ToggleTask(tasks, id);
    var twice := ToggleTask(once, id);
    forall i | 0 <= i < |tasks|
      ensures twice[i] == tasks[i]
    {
      assert once[i].id == tasks[i].id;
    }
  }

  /** The re-graded form of one task. */
  function Graded(t: Task, progress: int): Task
  {
    t.(progress := progress, status := StatusFor(progress), completed := progress == 100)
  }

  /** `updateTaskProgress`: the task takes the new progress, the status it
      stands for (completed at 100, in progress above 0, else pending) and
      `completed` exactly at 100; tasks with other ids are untouched. */
  function UpdateTaskProgress(tasks: seq<Task>, id: int, progress: int): (r: seq<Task>)
    ensures |r| == |tasks|
    ensures forall i :: 0 <= i < |r| && tasks[i].id != id ==> r[i] == tasks[i]
    ensures forall i :: 0 <= i < |r| && tasks[i].id == id ==>
              && r[i].progress == progress
              && (r[i].status == Completed <==> progress == 100)
              && (r[i].status == InProgress <==> 0 < progress != 100)
              && (r[i].status == Pending <==> progress <= 0)
              && r[i].completed == (progress == 100)
              && r[i] == tasks[i].(progress := r[i].progress, status := r[i].status, completed := r[i].completed)
  {
    seq(|tasks|, i requires 0 <= i < |tasks| => if tasks[i].id == id then Graded(tasks[i], progress) else tasks[i])
  }

  /** Re-grading keeps the record invariant, whatever the progress value. */
  lemma UpdateTaskProgressConsistent(tasks: seq<Task>, id: int, progress: int)
    requires AllConsistent(tasks)
    ensures AllConsistent(UpdateTaskProgress(tasks, id, progress))
  {
  }

  /** Re-grading with the same value twice is the same as once. */
  lemma UpdateTaskProgressIdempotent(tasks: seq<Task>, id: int, progress: int)
    ensures UpdateTaskProgress(UpdateTaskProgress(tasks, id, progress), id, progress)
         == UpdateTaskProgress(tasks, id, progress)
  {
    var once := UpdateTaskProgress(tasks, id, progress);
    var twice := UpdateTaskProgress(once, id, progress);
    assert forall i :: 0 <= i < |tasks| ==> once[i].id == tasks[i].id;
    assert forall i :: 0 <= i < |tasks| ==> twice[i] == once[i];
  }

  /** The progress buttons under each task. */
  const ProgressSteps: seq<int> := [0, 25, 50, 75, 100]

  predicate Survives(t: Task, id: int)
  {
    t.id != id
  }

  /** `deleteTask`: every task with that id goes, every other stays in order. */
  function DeleteTask(tasks: seq<Task>, id: int): (r: seq<Task>)
    ensures forall t :: t in r <==> t in tasks && t.id != id
    ensures IsSubseq(r, tasks)
  {
    var p := (t: Task) => Survives(t, id);
    FilterMembers(p, tasks);
    FilterIsSubseq(p, tasks);
    Filter(p, tasks)
  }

  /** Deleting keeps the record invariant. */
  lemma DeleteTaskConsistent(tasks: seq<Task>, id: int)
    requires AllConsistent(tasks)
    ensures AllConsistent(DeleteTask(tasks, id))
  {
    var r := DeleteTask(tasks, id);
    forall i | 0 <= i < |r|
      ensures Consistent(r[i])
    {
      assert r[i] in tasks;
    }
  }

  /** A priority and its label; the badge's CSS classes are not modelled. */
  datatype PriorityConfig = PriorityConfig(value: string, title: string)

  const Priorities: seq<PriorityConfig> := [
    PriorityConfig("low", "Low"),
    PriorityConfig("medium", "Medium"),
    PriorityConfig("high", "High")
  ]

  /** `getPriorityConfig`: the entry with that value, else the "medium" one. */
  function GetPriorityConfig(priority: string): (r: PriorityConfig)
    ensures r in Priorities
    ensures forall i :: 0 <= i < |Priorities| && Priorities[i].value == priority ==> r == Priorities[i]
    ensures (forall i :: 0 <= i < |Priorities| ==> Priorities[i].value != priority) ==> r == Priorities[1]
  {
    match Find(Priorities, (p: PriorityConfig) => p.value == priority)
    case Some(i) => Priorities[i]
    case None => Priorities[1]
  }

  /** An unknown priority is shown as "Medium". */
  lemma UnknownPriorityIsMedium(priority: string)
    requires priority !in ["low", "medium", "high"]
    ensures GetPriorityConfig(priority).title == "Medium"
  {
    assert forall i :: 0 <= i < 3 ==> Priorities[i].value == ["low", "medium", "high"][i];
  }

  /** The board the page starts with. */
  const SampleTasks: seq<Task> := [
    Task(1, "Review project proposal", "Go through the new client proposal and provide feedback",
         "high", InProgress, "2024-01-16", "Work", false, 60),
    Task(2, "Grocery shopping", "Buy weekly groceries including fruits and vegetables",
         "medium", Pending, "2024-01-15", "Personal", false, 0),
    Task(3, "Complete React tutorial", "Finish the advanced React patterns course",
         "medium", InProgress, "2024-01-20", "Learning", false, 80),
    Task(4, "Morning workout", "30-minute cardio session",
         "low", Completed, "2024-01-15", "Health", true, 100),
    Task(5, "Client meeting preparation", "Prepare slides and agenda for tomorrow's client call",
         "high", Pending, "2024-01-16", "Work", false, 0)
  ]

  /** The initial board satisfies the record invariant, and one task in
      five is done: 20%. */
  lemma SampleBoard()
    ensures AllConsistent(SampleTasks)
    ensures CountStatus(SampleTasks, Completed) == 1
    ensures CompletionRate(SampleTasks) == Some(20)
  {
    var p := (t: Task) => HasStatus(t, Completed);
    assert Filter(p, SampleTasks[4..]) == [];
    assert Filter(p, SampleTasks[3..]) == [SampleTasks[3]];
    assert Filter(p, SampleTasks) == [SampleTasks[3]];
  }
}
