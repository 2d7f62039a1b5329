/**
 * The task reducer: a total transition function from a task list and an
 * action to the next task list. The action type is a plain string; four
 * strings are handled and every other one leaves the list as it is.
 */
module TaskReducer {
  import opened Tasks
  import opened Seqs

  /** The four tags the reducer's switch matches. Delete is spelled with a hyphen. */
  const ADD_TAG: string := "ADD_TASK"
  const TOGGLE_TAG: string := "TOGGLE_TASK_COMPLETION"
  const EDIT_TAG: string := "EDIT_TASK"
  const DELETE_TAG: string := "DELETE-TASK"

  /** A payload is either a string (a description or an id) or the edit record. */
  datatype Payload = Text(text: string) | EditFields(id: string, newDescription: string)

  datatype Action = Action(tag: string, payload: Payload)

  /**
   * The payload shape the declared action union gives each handled tag; an
   * action with any other tag may carry any payload.
   */
  predicate WellTyped(a: Action) {
    && (a.tag == ADD_TAG || a.tag == TOGGLE_TAG || a.tag == DELETE_TAG ==> a.payload.Text?)
    && (a.tag == EDIT_TAG ==> a.payload.EditFields?)
  }

  predicate IsHandledTag(tag: string) {
    tag == ADD_TAG || tag == TOGGLE_TAG || tag == EDIT_TAG || tag == DELETE_TAG
  }

  function ToggleIfMatches(t: Task, id: string): Task {
    if t.id == id then t.(isCompleted := !t.isCompleted) else t
  }

  /** The toggle branch: map over the list flipping the flag of matching tasks. */
  function ToggleById(tasks: seq<Task>, id: string): (r: seq<Task>)
    ensures |r| == |tasks|
    ensures forall i :: 0 <= i < |r| ==>
      r[i].id == tasks[i].id && r[i].description == tasks[i].description
    ensures forall i :: 0 <= i < |r| ==>
      (r[i].isCompleted != tasks[i].isCompleted <==> tasks[i].id == id)
  {
    if |tasks| == 0 then [] else [ToggleIfMatches(tasks[0], id)] + ToggleById(tasks[1..], id)
  }

  function EditIfMatches(t: Task, id: string, newDescription: string): Task {
    if t.id == id then t.(description := newDescription) else t
  }

  /** The edit branch: map over the list replacing the description of matching tasks. */
  function EditById(tasks: seq<Task>, id: string, newDescription: string): (r: seq<Task>)
    ensures |r| == |tasks|
    ensures forall i :: 0 <= i < |r| ==>
      r[i].id == tasks[i].id && r[i].isCompleted == tasks[i].isCompleted
    ensures forall i :: 0 <= i < |r| && tasks[i].id == id ==> r[i].description == newDescription
    ensures forall i :: 0 <= i < |r| && tasks[i].id != id ==> r[i] == tasks[i]
  {
    if |tasks| == 0 then []
    else [EditIfMatches(tasks[0], id, newDescription)] + EditById(tasks[1..], id, newDescription)
  }

  /** The delete branch's filter predicate. */
  function OtherId(id: string): Task -> bool {
    (t: Task) => t.id != id
  }

  /** The delete branch: keep the tasks whose id differs, in order. */
  function DeleteById(tasks: seq<Task>, id: string): (r: seq<Task>)
    ensures IsSubsequence(r, tasks)
    ensures !HasId(r, id)
    ensures forall i :: 0 <= i < |tasks| && tasks[i].id != id ==> tasks[i] in r
  {
    FilterIsSubsequence(tasks, OtherId(id));
    Filter(tasks, OtherId(id))
  }

  /**
   * `taskReducer`. `newId` stands for the value `crypto.randomUUID()` would
   * return; it is used by the add branch only.
   */
  function Reduce(tasks: seq<Task>, action: Action, newId: string): (r: seq<Task>)
    requires WellTyped(action)
    ensures !IsHandledTag(action.tag) ==> r == tasks
    ensures action.tag == ADD_TAG ==> |r| == |tasks| + 1
    ensures action.tag != ADD_TAG ==> |r| <= |tasks|
  {
    if action.tag == ADD_TAG then
      tasks + [Task(newId, action.payload.text, false)]
    else if action.tag == TOGGLE_TAG then
      ToggleById(tasks, action.payload.text)
    else if action.tag == EDIT_TAG then
      EditById(tasks, action.payload.id, action.payload.newDescription)
    else if action.tag == DELETE_TAG then
      DeleteById(tasks, action.payload.text)
    else
      tasks
  }

  /** The add branch appends exactly one task and keeps the prefix. */
  lemma ReduceAdd(tasks: seq<Task>, description: string, newId: string)
    ensures var r := Reduce(tasks, Action(ADD_TAG, Text(description)), newId);
      && |r| == |tasks| + 1
      && r[..|tasks|] == tasks
      && r[|tasks|] == Task(newId, description, false)
  {
  }

  /** With a fresh id, adding keeps the ids unique. Freshness is not established by the reducer. */
  lemma {:induction false} AddKeepsIdsUnique(tasks: seq<Task>, description: string, newId: string)
    requires UniqueIds(tasks) && !HasId(tasks, newId)
    ensures UniqueIds(Reduce(tasks, Action(ADD_TAG, Text(description)), newId))
  {
    var r := Reduce(tasks, Action(ADD_TAG, Text(description)), newId);
    forall i, j | 0 <= i < j < |r|
      ensures r[i].id != r[j].id
    {
      if j == |tasks| {
        assert r[i] == tasks[i];
      } else {
        assert r[i] == tasks[i] && r[j] == tasks[j];
      }
    }
  }

  /** Toggling the same id twice restores the list. */
  lemma ToggleInvolution(tasks: seq<Task>, id: string)
    ensures ToggleById(ToggleById(tasks, id), id) == tasks
  {
    var r := ToggleById(ToggleById(tasks, id), id);
    assert forall i :: 0 <= i < |r| ==> r[i] == tasks[i];
  }

  /** With unique ids, toggling a present id changes exactly the task that has it. */
  lemma ToggleFlipsExactlyOne(tasks: seq<Task>, id: string, k: int)
    requires UniqueIds(tasks) && 0 <= k < |tasks| && tasks[k].id == id
    ensures var r := ToggleById(tasks, id);
      && r[k] == tasks[k].(isCompleted := !tasks[k].isCompleted)
      && forall i :: 0 <= i < |tasks| && i != k ==> r[i] == tasks[i]
  {
  }

  /** Toggle and edit keep every id, so they keep ids unique. */
  lemma MapsKeepIdsUnique(tasks: seq<Task>, id: string, newDescription: string)
    requires UniqueIds(tasks)
    ensures UniqueIds(ToggleById(tasks, id))
    ensures UniqueIds(EditById(tasks, id, newDescription))
  {
  }

  /** A subsequence of a list with unique ids has unique ids. */
  lemma {:induction false} SubsequenceKeepsIdsUnique(r: seq<Task>, tasks: seq<Task>)
    requires IsSubsequence(r, tasks) && UniqueIds(tasks)
    ensures UniqueIds(r)
    decreases |tasks|
  {
    if |r| > 0 {
      if r[0] == tasks[0] && IsSubsequence(r[1..], tasks[1..]) {
        SubsequenceKeepsIdsUnique(r[1..], tasks[1..]);
        SubsequenceMembers(r[1..], tasks[1..]);
        forall j | 0 < j < |r|
          ensures r[0].id != r[j].id
        {
          var k :| 0 <= k < |tasks[1..]| && tasks[1..][k] == r[1..][j - 1];
          assert tasks[k + 1] == r[j];
        }
        forall i, j | 0 <= i < j < |r|
          ensures r[i].id != r[j].id
        {
          if i > 0 {
            assert r[i] == r[1..][i - 1] && r[j] == r[1..][j - 1];
          }
        }
      } else {
        SubsequenceKeepsIdsUnique(r, tasks[1..]);
      }
    }
  }

  lemma DeleteKeepsIdsUnique(tasks: seq<Task>, id: string)
    requires UniqueIds(tasks)
    ensures UniqueIds(DeleteById(tasks, id))
  {
    SubsequenceKeepsIdsUnique(DeleteById(tasks, id), tasks);
  }

  /**
   * Delete returns exactly the order-preserving subsequence of the tasks
   * whose id differs: the only such subsequence of full length.
   */
  lemma DeleteCharacterization(tasks: seq<Task>, id: string, r: seq<Task>)
    ensures r == DeleteById(tasks, id) <==>
      && IsSubsequence(r, tasks)
      && (forall i :: 0 <= i < |r| ==> r[i].id != id)
      && |r| == Count(tasks, OtherId(id))
  {
    FilterCharacterization(tasks, OtherId(id), r);
  }

  /** An id no task carries makes toggle, edit and delete return the list unchanged. */
  lemma AbsentIdIsNoOp(tasks: seq<Task>, id: string, newDescription: string)
    requires !HasId(tasks, id)
    ensures ToggleById(tasks, id) == tasks
    ensures EditById(tasks, id, newDescription) == tasks
    ensures DeleteById(tasks, id) == tasks
  {
    var t := ToggleById(tasks, id);
    assert forall i :: 0 <= i < |t| ==> t[i] == tasks[i];
    FilterKeepsAll(tasks, OtherId(id));
  }
}
