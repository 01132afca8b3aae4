/** The two record kinds the tracker keeps, and the seed data it starts from. */
module Records {
  import Ids

  datatype Member = Member(id: int, name: string, email: string, role: string)

  /** `assignedTo` holds a member id; nothing checks that the member exists. */
  datatype Task = Task(id: int, description: string, assignedTo: int, completed: bool)

  /** `tasks.map(t => t.id)`. */
  function TaskIds(tasks: seq<Task>): (ids: seq<int>)
    ensures |ids| == |tasks|
    ensures forall i :: 0 <= i < |tasks| ==> ids[i] == tasks[i].id
  {
    seq(|tasks|, i requires 0 <= i < |tasks| => tasks[i].id)
  }

  /** `teamMembers.map(m => m.id)`. */
  function MemberIds(members: seq<Member>): (ids: seq<int>)
    ensures |ids| == |members|
    ensures forall i :: 0 <= i < |members| ==> ids[i] == members[i].id
  {
    seq(|members|, i requires 0 <= i < |members| => members[i].id)
  }

  ghost predicate UniqueTaskIds(tasks: seq<Task>) {
    forall i, j :: 0 <= i < j < |tasks| ==> tasks[i].id != tasks[j].id
  }

  ghost predicate UniqueMemberIds(members: seq<Member>) {
    forall i, j :: 0 <= i < j < |members| ==> members[i].id != members[j].id
  }

  /** Member `i` is the first one carrying `id`, the one `Array.prototype.find` returns. */
  ghost predicate FirstWithId(members: seq<Member>, i: int, id: int) {
    0 <= i < |members| && members[i].id == id && forall j :: 0 <= j < i ==> members[j].id != id
  }

  predicate IsMemberId(members: seq<Member>, id: int) {
    exists i :: 0 <= i < |members| && members[i].id == id
  }

  /** The relation the page intends but does not enforce: every task's
      assignee is a member of the team. */
  ghost predicate AssigneesExist(members: seq<Member>, tasks: seq<Task>) {
    forall i :: 0 <= i < |tasks| ==> IsMemberId(members, tasks[i].assignedTo)
  }

  const DefaultTeam: seq<Member> := [
    Member(1, "Alice Johnson", "alice@example.com", "Developer"),
    Member(2, "Bob Smith", "bob@example.com", "Designer"),
    Member(3, "Carla Gomez", "carla@example.com", "QA")
  ]

  const DefaultTasks: seq<Task> := [
    Task(1, "Fix login bug", 1, false),
    Task(2, "Design homepage", 2, true),
    Task(3, "Write tests for auth", 3, false)
  ]

  /** The seed data satisfies the intended invariants, and the next records
      added to it receive id 4. */
  lemma DefaultsWellFormed()
    ensures UniqueMemberIds(DefaultTeam) && UniqueTaskIds(DefaultTasks)
    ensures AssigneesExist(DefaultTeam, DefaultTasks)
    ensures Ids.Generate(TaskIds(DefaultTasks)) == 4
    ensures Ids.Generate(MemberIds(DefaultTeam)) == 4
  {
    assert DefaultTeam[0].id == 1 && DefaultTeam[1].id == 2 && DefaultTeam[2].id == 3;
    assert TaskIds(DefaultTasks) == [1, 2, 3];
    assert MemberIds(DefaultTeam) == [1, 2, 3];
    var ids: seq<int> := [1, 2, 3];
    assert ids[2] in ids;
    assert Ids.Generate(ids) - 1 in ids;
  }
}
