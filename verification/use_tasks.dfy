/**
 * The `useTasks` hook with the reducer state passed explicitly: the four
 * dispatch wrappers (each maps a user intent to the action it dispatches,
 * or to nothing), the filtered view and the tab counters.
 */
module UseTasks {
  import opened Wrappers
  import opened Tasks
  import opened Seqs
  import opened JsString
  import TaskActions
  import opened TaskReducer

  const FILTER_ALL: string := "all"
  const FILTER_COMPLETED: string := "completed"
  const FILTER_PENDING: string := "pending"

  /** `dispatch`: run the reducer on the dispatched action, if any. */
  function Dispatch(state: seq<Task>, action: Option<Action>, newId: string): seq<Task>
    requires action.Some? ==> WellTyped(action.value)
  {
    match action
    case None => state
    case Some(a) => Reduce(state, a, newId)
  }

  /** `addTask`: dispatch an add of the untrimmed text when it is not blank. */
  function AddTask(description: string): (a: Option<Action>)
    ensures a.Some? <==> !AllWhiteSpace(description)
    ensures a.Some? ==> a.value.tag == ADD_TAG && a.value.payload == Text(description)
  {
    TrimEmpty(description);
    if Trim(description) != [] then Some(Action(TaskActions.ADD_TASK, Text(description))) else None
  }

  function CompletedTask(id: string): (a: Action)
    ensures a.tag == TOGGLE_TAG && a.payload == Text(id)
  {
    Action(TaskActions.TOGGLE_TASK_COMPLETION, Text(id))
  }

  /** `deleteTask` dispatches the constant's spelling, which the reducer does not handle. */
  function DeleteTask(id: string): (a: Action)
    ensures WellTyped(a) && !IsHandledTag(a.tag)
  {
    Action(TaskActions.DELETE_TASK, Text(id))
  }

  function EditTask(id: string, newDescription: string): (a: Action)
    ensures a.tag == EDIT_TAG && a.payload == EditFields(id, newDescription)
  {
    Action(TaskActions.EDIT_TASK, EditFields(id, newDescription))
  }

  /** `getFilteredTasks`: the whole list, or the tasks of one completion status in list order. */
  function GetFilteredTasks(state: seq<Task>, filterType: string): (r: seq<Task>)
    ensures filterType != FILTER_COMPLETED && filterType != FILTER_PENDING ==> r == state
    ensures filterType == FILTER_COMPLETED ==>
      && IsSubsequence(r, state)
      && (forall i :: 0 <= i < |r| ==> r[i].isCompleted)
      && |r| == Count(state, IsCompleted)
    ensures filterType == FILTER_PENDING ==>
      && IsSubsequence(r, state)
      && (forall i :: 0 <= i < |r| ==> !r[i].isCompleted)
      && |r| == Count(state, IsPending)
  {
    FilterIsSubsequence(state, IsCompleted);
    FilterIsSubsequence(state, IsPending);
    FilterLength(state, IsCompleted);
    FilterLength(state, IsPending);
    if filterType == FILTER_ALL then state
    else if filterType == FILTER_COMPLETED then Filter(state, IsCompleted)
    else if filterType == FILTER_PENDING then Filter(state, IsPending)
    else state
  }

  /** `taskCounts`: the three tab counters. */
  function GetTaskCounts(state: seq<Task>): (c: TaskCounts)
    ensures c.all == |state|
    ensures c.completed + c.pending == c.all
    ensures c.completed == Count(state, IsCompleted)
  {
    FilterLength(state, IsCompleted);
    FilterLength(state, IsPending);
    CountSplit(state, IsCompleted, IsPending);
    TaskCounts(|state|, |Filter(state, IsCompleted)|, |Filter(state, IsPending)|)
  }

  /** Three of the four constants name the reducer's tags; the delete constant does not. */
  lemma ConstantsAgainstReducer()
    ensures TaskActions.ADD_TASK == ADD_TAG
    ensures TaskActions.TOGGLE_TASK_COMPLETION == TOGGLE_TAG
    ensures TaskActions.EDIT_TASK == EDIT_TAG
    ensures TaskActions.DELETE_TASK != DELETE_TAG
  {
  }

  /** Adding through the hook appends the untrimmed text when it is not blank, and otherwise changes nothing. */
  lemma AddTaskEndToEnd(state: seq<Task>, description: string, newId: string)
    ensures !AllWhiteSpace(description) ==>
      Dispatch(state, AddTask(description), newId) == state + [Task(newId, description, false)]
    ensures AllWhiteSpace(description) ==> Dispatch(state, AddTask(description), newId) == state
  {
  }

  /** Deleting through the hook never removes anything: its tag reaches the default branch. */
  lemma DeleteTaskIsNoOp(state: seq<Task>, id: string, newId: string)
    ensures Reduce(state, DeleteTask(id), newId) == state
  {
  }

  /** Toggling and editing through the hook are the reducer's toggle and edit on the given id. */
  lemma ToggleAndEditEndToEnd(state: seq<Task>, id: string, newDescription: string, newId: string)
    ensures Reduce(state, CompletedTask(id), newId) == ToggleById(state, id)
    ensures Reduce(state, EditTask(id, newDescription), newId) == EditById(state, id, newDescription)
    ensures ToggleById(Reduce(state, CompletedTask(id), newId), id) == state
  {
    ToggleInvolution(state, id);
  }

  /** Each filtered view is as long as the counter of its tab. */
  lemma ViewLengthsMatchCounts(state: seq<Task>)
    ensures |GetFilteredTasks(state, FILTER_ALL)| == GetTaskCounts(state).all
    ensures |GetFilteredTasks(state, FILTER_COMPLETED)| == GetTaskCounts(state).completed
    ensures |GetFilteredTasks(state, FILTER_PENDING)| == GetTaskCounts(state).pending
  {
    FilterLength(state, IsPending);
  }

  /**
   * The completed and pending views are exactly the filters by status:
   * any subsequence of the same kind and length is one of them.
   */
  lemma ViewsAreTheFilters(state: seq<Task>, r: seq<Task>)
    ensures r == GetFilteredTasks(state, FILTER_COMPLETED) <==>
      && IsSubsequence(r, state)
      && (forall i :: 0 <= i < |r| ==> r[i].isCompleted)
      && |r| == Count(state, IsCompleted)
    ensures r == GetFilteredTasks(state, FILTER_PENDING) <==>
      && IsSubsequence(r, state)
      && (forall i :: 0 <= i < |r| ==> !r[i].isCompleted)
      && |r| == Count(state, IsPending)
  {
    FilterCharacterization(state, IsCompleted, r);
    FilterCharacterization(state, IsPending, r);
  }

  /** Add "Buy milk" to an empty list, toggle it, then look at the views and counters. */
  lemma BuyMilkScenario(newId: string, otherId: string)
    ensures var s1 := Dispatch([], AddTask("Buy milk"), newId);
      && s1 == [Task(newId, "Buy milk", false)]
      && var s2 := Reduce(s1, CompletedTask(newId), otherId);
      && s2 == [Task(newId, "Buy milk", true)]
      && GetFilteredTasks(s2, FILTER_PENDING) == []
      && GetFilteredTasks(s2, FILTER_COMPLETED) == s2
      && GetTaskCounts(s2) == TaskCounts(1, 1, 0)
  {
    assert !AllWhiteSpace("Buy milk") by {
      assert !IsWhiteSpace("Buy milk"[0]);
    }
    AddTaskEndToEnd([], "Buy milk", newId);
    var s1 := Dispatch([], AddTask("Buy milk"), newId);
    assert s1 == [Task(newId, "Buy milk", false)];
    ToggleAndEditEndToEnd(s1, newId, "", otherId);
    var s2 := ToggleById(s1, newId);
    assert s2[0] == Task(newId, "Buy milk", true);
    assert s2 == [Task(newId, "Buy milk", true)];
    assert Filter(s2[1..], IsPending) == [];
    assert Filter(s2[1..], IsCompleted) == [];
  }
}
