/** The action-type constants the hooks dispatch with. */
module TaskActions {

  const ADD_TASK: string := "ADD_TASK"
  const DELETE_TASK: string := "DELETE_TASK"
  const TOGGLE_TASK_COMPLETION: string := "TOGGLE_TASK_COMPLETION"
  const EDIT_TASK: string := "EDIT_TASK"

  lemma TagsDistinct()
    ensures ADD_TASK != DELETE_TASK && ADD_TASK != TOGGLE_TASK_COMPLETION && ADD_TASK != EDIT_TASK
    ensures DELETE_TASK != TOGGLE_TASK_COMPLETION && DELETE_TASK != EDIT_TASK
    ensures TOGGLE_TASK_COMPLETION != EDIT_TASK
  {
  }
}
