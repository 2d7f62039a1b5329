/**
 * The records the task list is made of: a task and the three counters shown
 * on the filter tabs.
 */
module Tasks {

  /** One to-do entry: an opaque id, its text and a completion flag. */
  datatype Task = Task(id: string, description: string, isCompleted: bool)

  /** The numbers shown next to the "all", "completed" and "pending" tabs. */
  datatype TaskCounts = TaskCounts(all: nat, completed: nat, pending: nat)

  predicate IsCompleted(t: Task) { t.isCompleted }

  predicate IsPending(t: Task) { !t.isCompleted }

  /** Some task of the list carries `id`. */
  predicate HasId(tasks: seq<Task>, id: string) {
    exists i :: 0 <= i < |tasks| && tasks[i].id == id
  }

  /** No two tasks of the list share an id. */
  predicate UniqueIds(tasks: seq<Task>) {
    forall i, j :: 0 <= i < j < |tasks| ==> tasks[i].id != tasks[j].id
  }
}
