/**
 * The Task record exchanged with the server: an id that the server assigns
 * (absent on a task that has not been created yet), a title and a completion flag.
 */
module TaskModel {
  import opened Wrappers

  datatype Task = Task(id: Option<string>, title: string, completed: bool)

  /** The test `task.id === id`: a task without an id matches no id. */
  predicate HasId(t: Task, id: string)
    ensures t.id.None? ==> !HasId(t, id)
    ensures HasId(t, id) ==> t.id.value == id
  {
    t.id == Some(id)
  }

  /** No two held tasks carry the same id (tasks without an id are unconstrained). */
  ghost predicate UniqueIds(tasks: seq<Task>) {
    forall i, j :: 0 <= i < j < |tasks| && tasks[i].id.Some? ==> tasks[i].id != tasks[j].id
  }

  /** No held task carries `id`. */
  ghost predicate Absent(tasks: seq<Task>, id: string) {
    forall k :: 0 <= k < |tasks| ==> !HasId(tasks[k], id)
  }
}
