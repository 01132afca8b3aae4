/** The task list `renderTasks` draws, with the markup itself left out: one
    row per task shown under the current filter, carrying the escaped text. */
module View {
  import opened Text
  import opened Records
  import opened Tracker

  /** One list item: its `data-id`, whether it is drawn completed (class and
      checkbox), and the two escaped texts it shows. */
  datatype Row = Row(id: int, completed: bool, description: string, assignee: string)

  /** The list: a placeholder item with its text, or the rows. */
  datatype TaskList = NoTasks(text: string) | Rows(rows: seq<Row>)

  const NoTasksText := "No tasks to show"

  function RenderRow(members: seq<Member>, t: Task): (r: Row)
    ensures r.id == t.id && r.completed == t.completed
    ensures '<' !in r.description && '>' !in r.description
    ensures '<' !in r.assignee && '>' !in r.assignee
  {
    Row(t.id, t.completed, EscapeHtml(t.description), EscapeHtml(AssigneeName(members, t.assignedTo)))
  }

  function RenderTasks(s: State, f: TaskFilter): (r: TaskList)
    ensures r.NoTasks? <==> TasksShown(s.tasks, f) == []
    ensures r.NoTasks? ==> r.text == NoTasksText
    ensures r.Rows? ==> |r.rows| == |TasksShown(s.tasks, f)|
    ensures r.Rows? ==> forall i :: 0 <= i < |r.rows| ==>
              && r.rows[i].id == TasksShown(s.tasks, f)[i].id
              && r.rows[i].completed == TasksShown(s.tasks, f)[i].completed
              && '<' !in r.rows[i].description && '>' !in r.rows[i].description
              && '<' !in r.rows[i].assignee && '>' !in r.rows[i].assignee
  {
    var shown := TasksShown(s.tasks, f);
    if shown == [] then NoTasks(NoTasksText)
    else Rows(seq(|shown|, i requires 0 <= i < |shown| => RenderRow(s.members, shown[i])))
  }

  /** Every row's texts, once the three entities are decoded, are its
      task's description and its assignee's name. */
  lemma RowsReadBack(s: State, f: TaskFilter, i: nat)
    requires RenderTasks(s, f).Rows? && i < |RenderTasks(s, f).rows|
    ensures var t := TasksShown(s.tasks, f)[i];
            var row := RenderTasks(s, f).rows[i];
            Unescape(row.description) == t.description
            && Unescape(row.assignee) == AssigneeName(s.members, t.assignedTo)
  {
    var t := TasksShown(s.tasks, f)[i];
    UnescapeEscape(t.description);
    UnescapeEscape(AssigneeName(s.members, t.assignedTo));
  }

  /** With the `'all'` filter every task gets a row, in the stored order. */
  lemma AllShowsEveryTask(s: State, i: nat)
    requires s.tasks != [] && i < |s.tasks|
    ensures RenderTasks(s, All).Rows?
    ensures |RenderTasks(s, All).rows| == |s.tasks|
    ensures RenderTasks(s, All).rows[i] == RenderRow(s.members, s.tasks[i])
  {
  }
}
