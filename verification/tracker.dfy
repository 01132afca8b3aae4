/** The tracker's state and the user actions that change it: the add-task and
    add-member forms, the per-task toggle, checkbox and delete controls, the
    clear-completed button, and the lookups the task list is rendered from. */
module Tracker {
  import opened Wrappers
  import opened Seqs
  import opened Ids
  import opened Text
  import opened Records

  /** The two in-memory collections, `teamMembers` and `tasks`. */
  datatype State = State(members: seq<Member>, tasks: seq<Task>)

  /** The value of the filter selector: `'all'`, or one member's id. */
  datatype TaskFilter = All | AssignedTo(memberId: int)

  /** What a form submission leaves behind: the new state, and the alert the
      page shows instead when it refuses the submission. */
  datatype Submission = Submission(state: State, alert: Option<string>)

  const TaskAlert := "Please enter a task description"
  const MemberAlert := "Please fill all member fields"
  const UnassignedName := "Unassigned"

  /** Ids are unique within each collection. */
  ghost predicate Valid(s: State) {
    UniqueMemberIds(s.members) && UniqueTaskIds(s.tasks)
  }

  // ---------------------------------------------------------------- lookups

  /** `findMemberById`: the first member carrying `id`, if any. */
  function FindMember(members: seq<Member>, id: int): (r: Option<Member>)
    ensures r.None? <==> !IsMemberId(members, id)
    ensures forall i :: FirstWithId(members, i, id) ==> r == Some(members[i])
    decreases |members|
  {
    if members == [] then None
    else if members[0].id == id then Some(members[0])
    else
      var r := FindMember(members[1..], id);
      assert IsMemberId(members, id) ==> IsMemberId(members[1..], id) by {
        if IsMemberId(members, id) {
          var k :| 0 <= k < |members| && members[k].id == id;
          assert members[1..][k - 1].id == id;
        }
      }
      assert forall i :: FirstWithId(members, i, id) ==> FirstWithId(members[1..], i - 1, id) by {
        forall i | FirstWithId(members, i, id) ensures FirstWithId(members[1..], i - 1, id) {
          assert forall j :: 0 <= j < i - 1 ==> members[1..][j] == members[j + 1];
        }
      }
      r
  }

  /** The assignee name a task row shows: the first matching member's name,
      or "Unassigned" when no member has the id. */
  function AssigneeName(members: seq<Member>, id: int): (r: string)
    ensures !IsMemberId(members, id) ==> r == UnassignedName
    ensures forall i :: FirstWithId(members, i, id) ==> r == members[i].name
  {
    match FindMember(members, id)
    case Some(m) => m.name
    case None => UnassignedName
  }

  /** With unique member ids the name shown is that of the one member with the id. */
  lemma AssigneeNameOfUniqueMember(members: seq<Member>, i: nat)
    requires UniqueMemberIds(members)
    requires i < |members|
    ensures AssigneeName(members, members[i].id) == members[i].name
  {
  }

  // -------------------------------------------------------------- filtering

  function IsAssignedTo(id: int): Task -> bool {
    (t: Task) => t.assignedTo == id
  }

  /** The list `renderTasks` draws for a filter value. */
  function TasksShown(tasks: seq<Task>, f: TaskFilter): (r: seq<Task>)
    ensures f.All? ==> r == tasks
    ensures f.AssignedTo? ==> forall i :: 0 <= i < |r| ==> r[i].assignedTo == f.memberId && r[i] in tasks
    ensures f.AssignedTo? ==> forall i :: 0 <= i < |tasks| && tasks[i].assignedTo == f.memberId ==> tasks[i] in r
  {
    match f
    case All => tasks
    case AssignedTo(id) => Filter(IsAssignedTo(id), tasks)
  }

  /** Filtering by a member keeps every copy of that member's tasks, drops
      every other task, and keeps the original order. */
  lemma TasksShownExactly(tasks: seq<Task>, f: TaskFilter, t: Task)
    requires f.AssignedTo?
    ensures multiset(TasksShown(tasks, f))[t]
            == if t.assignedTo == f.memberId then multiset(tasks)[t] else 0
    ensures SubsequenceOf(TasksShown(tasks, f), tasks)
  {
    FilterMultiplicity(IsAssignedTo(f.memberId), tasks, t);
    FilterIsSubsequence(IsAssignedTo(f.memberId), tasks);
  }

  // ------------------------------------------------------ completion flag

  /** The checkbox handler: the task of row `i` takes the checkbox's state. */
  function SetCompleted(s: State, i: nat, checked: bool): (r: State)
    requires i < |s.tasks|
    ensures r.members == s.members && |r.tasks| == |s.tasks|
    ensures r.tasks[i] == s.tasks[i].(completed := checked)
    ensures forall j :: 0 <= j < |s.tasks| && j != i ==> r.tasks[j] == s.tasks[j]
  {
    s.(tasks := s.tasks[i := s.tasks[i].(completed := checked)])
  }

  /** The toggle button: the task of row `i` flips its completion flag. */
  function Toggle(s: State, i: nat): (r: State)
    requires i < |s.tasks|
    ensures r.members == s.members && |r.tasks| == |s.tasks|
    ensures r.tasks[i].completed == !s.tasks[i].completed
    ensures r.tasks[i].id == s.tasks[i].id && r.tasks[i].description == s.tasks[i].description
    ensures r.tasks[i].assignedTo == s.tasks[i].assignedTo
    ensures forall j :: 0 <= j < |s.tasks| && j != i ==> r.tasks[j] == s.tasks[j]
  {
    SetCompleted(s, i, !s.tasks[i].completed)
  }

  /** Toggling the same row twice restores the state. */
  lemma ToggleTwice(s: State, i: nat)
    requires i < |s.tasks|
    ensures Toggle(Toggle(s, i), i) == s
  {
  }

  lemma ToggleKeepsValid(s: State, i: nat)
    requires Valid(s) && i < |s.tasks|
    ensures Valid(Toggle(s, i))
    ensures AssigneesExist(s.members, s.tasks) ==> AssigneesExist(s.members, Toggle(s, i).tasks)
  {
  }

  // --------------------------------------------------------------- removal

  function HasOtherId(id: int): Task -> bool {
    (t: Task) => t.id != id
  }

  function IsOpen(t: Task): bool {
    !t.completed
  }

  /** The delete button of a task with id `id`: every task with that id goes. */
  function DeleteTask(s: State, id: int): (r: State)
    ensures r.members == s.members
    ensures forall i :: 0 <= i < |r.tasks| ==> r.tasks[i].id != id && r.tasks[i] in s.tasks
    ensures forall i :: 0 <= i < |s.tasks| && s.tasks[i].id != id ==> s.tasks[i] in r.tasks
  {
    s.(tasks := Filter(HasOtherId(id), s.tasks))
  }

  /** Deleting keeps the surviving tasks in their order. */
  lemma DeleteTaskKeepsOrder(s: State, id: int)
    ensures SubsequenceOf(DeleteTask(s, id).tasks, s.tasks)
  {
    FilterIsSubsequence(HasOtherId(id), s.tasks);
  }

  /** Deleting keeps every copy of each task with another id and no copy of
      a task with the deleted id. */
  lemma DeleteTaskExactly(s: State, id: int, t: Task)
    ensures multiset(DeleteTask(s, id).tasks)[t] == if t.id == id then 0 else multiset(s.tasks)[t]
  {
    FilterMultiplicity(HasOtherId(id), s.tasks, t);
  }

  /** With unique ids, deleting the id of row `k` removes that row and no other. */
  lemma DeleteTaskRemovesOne(s: State, k: nat)
    requires UniqueTaskIds(s.tasks) && k < |s.tasks|
    ensures DeleteTask(s, s.tasks[k].id).tasks == s.tasks[..k] + s.tasks[k + 1..]
  {
    var p := HasOtherId(s.tasks[k].id);
    var before, after := s.tasks[..k], s.tasks[k + 1..];
    assert s.tasks == before + [s.tasks[k]] + after;
    forall i | 0 <= i < |before| ensures p(before[i]) {
      assert before[i] == s.tasks[i];
    }
    forall i | 0 <= i < |after| ensures p(after[i]) {
      assert after[i] == s.tasks[k + 1 + i];
    }
    FilterDropsMiddle(p, before, s.tasks[k], after);
  }

  /** `tasks.filter(t => !t.completed)`: the clear-completed button. */
  function ClearCompleted(s: State): (r: State)
    ensures r.members == s.members
    ensures forall i :: 0 <= i < |r.tasks| ==> !r.tasks[i].completed && r.tasks[i] in s.tasks
    ensures forall i :: 0 <= i < |s.tasks| && !s.tasks[i].completed ==> s.tasks[i] in r.tasks
  {
    s.(tasks := Filter(IsOpen, s.tasks))
  }

  /** Clearing keeps every copy of an open task, in order, and nothing else. */
  lemma ClearCompletedExactly(s: State, t: Task)
    ensures multiset(ClearCompleted(s).tasks)[t] == if t.completed then 0 else multiset(s.tasks)[t]
    ensures SubsequenceOf(ClearCompleted(s).tasks, s.tasks)
  {
    FilterMultiplicity(IsOpen, s.tasks, t);
    FilterIsSubsequence(IsOpen, s.tasks);
  }

  /** A second clear has nothing left to remove. */
  lemma ClearCompletedIdempotent(s: State)
    ensures ClearCompleted(ClearCompleted(s)) == ClearCompleted(s)
  {
    FilterIdempotent(IsOpen, s.tasks);
  }

  lemma {:induction false} FilterKeepsUniqueIds(p: Task -> bool, tasks: seq<Task>)
    requires UniqueTaskIds(tasks)
    ensures UniqueTaskIds(Filter(p, tasks))
    decreases |tasks|
  {
    if tasks != [] {
      var rest := tasks[1..];
      assert UniqueTaskIds(rest) by {
        forall i, j | 0 <= i < j < |rest| ensures rest[i].id != rest[j].id {
          assert rest[i] == tasks[i + 1] && rest[j] == tasks[j + 1];
        }
      }
      FilterKeepsUniqueIds(p, rest);
      var fr := Filter(p, rest);
      if p(tasks[0]) {
        forall i | 0 <= i < |fr| ensures fr[i].id != tasks[0].id {
          var k :| 0 <= k < |rest| && rest[k] == fr[i];
          assert rest[k] == tasks[k + 1];
        }
        var r := [tasks[0]] + fr;
        forall i, j | 0 <= i < j < |r| ensures r[i].id != r[j].id {
          if i > 0 { assert r[i] == fr[i - 1]; }
          assert r[j] == fr[j - 1];
        }
      }
    }
  }

  lemma FilterKeepsAssignees(p: Task -> bool, members: seq<Member>, tasks: seq<Task>)
    requires AssigneesExist(members, tasks)
    ensures AssigneesExist(members, Filter(p, tasks))
  {
  }

  lemma DeleteTaskKeepsValid(s: State, id: int)
    requires Valid(s)
    ensures Valid(DeleteTask(s, id))
    ensures AssigneesExist(s.members, s.tasks) ==> AssigneesExist(s.members, DeleteTask(s, id).tasks)
  {
    FilterKeepsUniqueIds(HasOtherId(id), s.tasks);
    if AssigneesExist(s.members, s.tasks) {
      FilterKeepsAssignees(HasOtherId(id), s.members, s.tasks);
    }
  }

  lemma ClearCompletedKeepsValid(s: State)
    requires Valid(s)
    ensures Valid(ClearCompleted(s))
    ensures AssigneesExist(s.members, s.tasks) ==> AssigneesExist(s.members, ClearCompleted(s).tasks)
  {
    FilterKeepsUniqueIds(IsOpen, s.tasks);
    if AssigneesExist(s.members, s.tasks) {
      FilterKeepsAssignees(IsOpen, s.members, s.tasks);
    }
  }

  // ------------------------------------------------------------- creation

  /** The add-task form: refused with an alert when the trimmed description
      is empty, otherwise one new open task is appended with a fresh id. */
  function AddTask(s: State, description: string, assignedTo: int): (r: Submission)
    ensures r.alert.Some? <==> Trim(description) == []
    ensures r.alert.Some? ==> r.state == s && r.alert.value == TaskAlert
    ensures r.alert.None? ==>
              && r.state.members == s.members
              && |r.state.tasks| == |s.tasks| + 1
              && r.state.tasks[..|s.tasks|] == s.tasks
              && r.state.tasks[|s.tasks|].description == Trim(description)
              && r.state.tasks[|s.tasks|].id == Generate(TaskIds(s.tasks))
              && r.state.tasks[|s.tasks|].assignedTo == assignedTo
              && !r.state.tasks[|s.tasks|].completed
              && forall i :: 0 <= i < |s.tasks| ==> s.tasks[i].id < r.state.tasks[|s.tasks|].id
  {
    var desc := Trim(description);
    if desc == [] then Submission(s, Some(TaskAlert))
    else
      var ids := TaskIds(s.tasks);
      var t := Task(Generate(ids), desc, assignedTo, false);
      assert forall i :: 0 <= i < |s.tasks| ==> s.tasks[i].id == ids[i] && ids[i] in ids;
      var tasks := s.tasks + [t];
      assert tasks[..|s.tasks|] == s.tasks && tasks[|s.tasks|] == t;
      Submission(State(s.members, tasks), None)
  }

  /** The add-member form: refused with an alert when any trimmed field is
      empty, otherwise one new member is appended with a fresh id. */
  function AddMember(s: State, name: string, email: string, role: string): (r: Submission)
    ensures r.alert.Some? <==> Trim(name) == [] || Trim(email) == [] || Trim(role) == []
    ensures r.alert.Some? ==> r.state == s && r.alert.value == MemberAlert
    ensures r.alert.None? ==>
              && r.state.tasks == s.tasks
              && |r.state.members| == |s.members| + 1
              && r.state.members[..|s.members|] == s.members
              && r.state.members[|s.members|].id == Generate(MemberIds(s.members))
              && r.state.members[|s.members|].name == Trim(name)
              && r.state.members[|s.members|].email == Trim(email)
              && r.state.members[|s.members|].role == Trim(role)
              && forall i :: 0 <= i < |s.members| ==> s.members[i].id < r.state.members[|s.members|].id
  {
    var n, e, ro := Trim(name), Trim(email), Trim(role);
    if n == [] || e == [] || ro == [] then Submission(s, Some(MemberAlert))
    else
      var ids := MemberIds(s.members);
      var m := Member(Generate(ids), n, e, ro);
      assert forall i :: 0 <= i < |s.members| ==> s.members[i].id == ids[i] && ids[i] in ids;
      var members := s.members + [m];
      assert members[..|s.members|] == s.members && members[|s.members|] == m;
      Submission(State(members, s.tasks), None)
  }

  /** Adding a task keeps ids unique, and keeps every assignee a member when
      the new task's assignee is one. */
  lemma AddTaskKeepsValid(s: State, description: string, assignedTo: int)
    requires Valid(s)
    ensures Valid(AddTask(s, description, assignedTo).state)
    ensures AssigneesExist(s.members, s.tasks) && IsMemberId(s.members, assignedTo)
            ==> AssigneesExist(s.members, AddTask(s, description, assignedTo).state.tasks)
  {
  }

  lemma AddMemberKeepsValid(s: State, name: string, email: string, role: string)
    requires Valid(s)
    ensures Valid(AddMember(s, name, email, role).state)
    ensures AssigneesExist(s.members, s.tasks)
            ==> AssigneesExist(AddMember(s, name, email, role).state.members, s.tasks)
  {
  }

  /** Deleting a freshly added task gives back the tasks from before the add. */
  lemma DeleteUndoesAddTask(s: State, description: string, assignedTo: int)
    requires AddTask(s, description, assignedTo).alert.None?
    ensures var after := AddTask(s, description, assignedTo).state;
            DeleteTask(after, after.tasks[|s.tasks|].id).tasks == s.tasks
  {
    var after := AddTask(s, description, assignedTo).state;
    var t := after.tasks[|s.tasks|];
    var p := HasOtherId(t.id);
    assert after.tasks == s.tasks + [t];
    FilterConcat(p, s.tasks, [t]);
    FilterKeepsAll(p, s.tasks);
    assert Filter(p, [t]) == [];
  }

  /** A newly added task is open, so clearing completed tasks keeps it. */
  lemma ClearCompletedKeepsNewTask(s: State, description: string, assignedTo: int)
    requires AddTask(s, description, assignedTo).alert.None?
    ensures var after := AddTask(s, description, assignedTo).state;
            ClearCompleted(after).tasks == ClearCompleted(s).tasks + [after.tasks[|s.tasks|]]
  {
    var after := AddTask(s, description, assignedTo).state;
    var t := after.tasks[|s.tasks|];
    assert after.tasks == s.tasks + [t];
    FilterConcat(IsOpen, s.tasks, [t]);
    assert Filter(IsOpen, [t]) == [t];
  }
}
