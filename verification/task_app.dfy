/**
 * The `TaskApp` component's own copy of the task logic: it dispatches with
 * string literals instead of the constants, trims the text before adding,
 * and repeats the hook's view and counter code.
 */
module TaskApp {
  import opened Wrappers
  import opened Tasks
  import opened Seqs
  import opened JsString
  import opened TaskReducer
  import UseTasks

  /** `addTask`, with the input's current text `raw` as the argument: add the trimmed text when it is not empty. */
  function AddTask(raw: string): (a: Option<Action>)
    ensures a.Some? <==> !AllWhiteSpace(raw)
    ensures a.Some? ==> a.value.tag == ADD_TAG && a.value.payload.Text?
    ensures a.Some? ==> a.value.payload.text == Trim(raw)
    ensures a.Some? ==> IsTrimmed(a.value.payload.text) && a.value.payload.text != []
  {
    TrimEmpty(raw);
    var inputValue := Trim(raw);
    if inputValue != [] then Some(Action("ADD_TASK", Text(inputValue))) else None
  }

  function CompletedTask(id: string): (a: Action)
    ensures a.tag == TOGGLE_TAG && a.payload == Text(id)
  {
    Action("TOGGLE_TASK_COMPLETION", Text(id))
  }

  /** The literal is spelled with an underscore; the reducer's delete tag has a hyphen. */
  function DeleteTask(id: string): (a: Action)
    ensures WellTyped(a) && !IsHandledTag(a.tag)
  {
    Action("DELETE_TASK", Text(id))
  }

  function EditTask(id: string, newDescription: string): (a: Action)
    ensures a.tag == EDIT_TAG && a.payload == EditFields(id, newDescription)
  {
    Action("EDIT_TASK", EditFields(id, newDescription))
  }

  /** The component's `getFilteredTasks`, reading the selected filter from `filterType`. */
  function GetFilteredTasks(state: seq<Task>, filterType: string): (r: seq<Task>)
    ensures r == UseTasks.GetFilteredTasks(state, filterType)
    ensures IsSubsequence(r, state)
    ensures filterType == "completed" ==> forall i :: 0 <= i < |r| ==> r[i].isCompleted
    ensures filterType == "pending" ==> forall i :: 0 <= i < |r| ==> !r[i].isCompleted
  {
    FilterIsSubsequence(state, IsCompleted);
    FilterIsSubsequence(state, IsPending);
    SubsequenceReflexive(state);
    match filterType
    case "all" => state
    case "completed" => Filter(state, IsCompleted)
    case "pending" => Filter(state, IsPending)
    case _ => state
  }

  /** The component's `taskCounts`. */
  function GetTaskCounts(state: seq<Task>): (c: TaskCounts)
    ensures c == UseTasks.GetTaskCounts(state)
    ensures c.all == |state| && c.completed + c.pending == c.all
  {
    TaskCounts(|state|, |Filter(state, IsCompleted)|, |Filter(state, IsPending)|)
  }

  /** Adding from the component stores the trimmed text, and nothing when the text is blank. */
  lemma AddTaskEndToEnd(state: seq<Task>, raw: string, newId: string)
    ensures !AllWhiteSpace(raw) ==>
      UseTasks.Dispatch(state, AddTask(raw), newId) == state + [Task(newId, Trim(raw), false)]
    ensures AllWhiteSpace(raw) ==> UseTasks.Dispatch(state, AddTask(raw), newId) == state
  {
  }

  /** White space typed around a text does not reach the stored description. */
  lemma AddIgnoresPadding(a: string, t: string, b: string)
    requires AllWhiteSpace(a) && AllWhiteSpace(b)
    ensures AddTask(a + t + b) == AddTask(t)
  {
    TrimIgnoresPadding(a, t, b);
    TrimEmpty(a + t + b);
    TrimEmpty(t);
  }

  /** Deleting from the component never removes anything. */
  lemma DeleteTaskIsNoOp(state: seq<Task>, id: string, newId: string)
    ensures Reduce(state, DeleteTask(id), newId) == state
  {
  }
}
