/**
 * The `TodoInput` edit buffer: a state machine over the text being typed and
 * the error being shown. Typing past the maximum length is refused; submitting
 * either shows the validation message or hands the trimmed text to the caller
 * and clears the buffer.
 */
module TodoInput {
  import opened Wrappers
  import opened Tasks
  import opened JsString
  import opened Validation
  import opened TaskValidation
  import UseTasks
  import TaskApp

  datatype InputState = InputState(value: string, error: Option<ErrorMessage>)

  /** What a submit does: the next buffer state and the text passed to `onAddTask`, if any. */
  datatype SubmitOutcome = SubmitOutcome(next: InputState, added: Option<string>)

  datatype Event = Change(newValue: string) | Submit

  const Initial: InputState := InputState("", None)

  /** The states the length cap promises: never more than `MAX_LENGTH` characters. */
  predicate WithinLimit(st: InputState) {
    |st.value| <= MAX_LENGTH
  }

  /** `handleChange`: accept the new text and clear the error, unless it is too long. */
  function HandleChange(st: InputState, newValue: string): (r: InputState)
    ensures |newValue| <= MAX_LENGTH ==> r.value == newValue && r.error.None?
    ensures |newValue| > MAX_LENGTH ==> r == st
    ensures WithinLimit(st) ==> WithinLimit(r)
  {
    if |newValue| <= MAX_LENGTH then InputState(newValue, None) else st
  }

  /** `handleSubmit`. */
  function HandleSubmit(st: InputState): (o: SubmitOutcome)
    ensures ValidateTask(st.value).Some? ==>
      o.added.None? && o.next.value == st.value && o.next.error == ValidateTask(st.value)
    ensures ValidateTask(st.value).None? ==> o.next == Initial && o.added == Some(Trim(st.value))
    ensures o.added.Some? ==>
      && IsTrimmed(o.added.value)
      && MIN_LENGTH <= |o.added.value| <= MAX_LENGTH
      && MatchesPattern(o.added.value)
      && ValidateTask(o.added.value).None?
    ensures WithinLimit(st) ==> WithinLimit(o.next)
  {
    var validationError := ValidateTask(st.value);
    if validationError.Some? then
      SubmitOutcome(st.(error := validationError), None)
    else
      ValidateTrimmed(st.value);
      SubmitOutcome(Initial, Some(Trim(st.value)))
  }

  function Step(st: InputState, e: Event): InputState {
    match e
    case Change(v) => HandleChange(st, v)
    case Submit => HandleSubmit(st).next
  }

  /** The buffer after a sequence of events, starting from the empty buffer. */
  function Run(events: seq<Event>): (st: InputState)
    ensures WithinLimit(st)
  {
    if |events| == 0 then Initial
    else Step(Run(events[..|events| - 1]), events[|events| - 1])
  }

  /** `remainingChars`. */
  function RemainingChars(st: InputState): (n: int)
    ensures WithinLimit(st) <==> n >= 0
    ensures n + |st.value| == MAX_LENGTH
  {
    MAX_LENGTH - |st.value|
  }

  /** `isNearLimit`: the counter is shown from 80 characters on. */
  function IsNearLimit(st: InputState): (b: bool)
    ensures b <==> |st.value| >= MAX_LENGTH - 20
  {
    RemainingChars(st) <= 20
  }

  /** Whether the Add button is disabled: fewer than `MIN_LENGTH` raw characters, which always fails validation. */
  function AddDisabled(st: InputState): (b: bool)
    ensures b <==> |st.value| < MIN_LENGTH
    ensures b ==> ValidateTask(st.value) == Some(OnlySpaces) || ValidateTask(st.value) == Some(MinLength)
  {
    TrimEmpty(st.value);
    |st.value| < MIN_LENGTH
  }

  /** In every reachable state the remaining-character counter is not negative. */
  lemma RemainingNeverNegative(events: seq<Event>)
    ensures RemainingChars(Run(events)) >= 0
  {
  }

  /** In every reachable state a submit never reports the too-long message. */
  lemma SubmitNeverTooLong(events: seq<Event>)
    ensures HandleSubmit(Run(events)).next.error != Some(MaxLength)
  {
    var st := Run(events);
    TrimEmpty(st.value);
  }

  /**
   * A submitted text is valid and already trimmed, and if `TaskApp`'s `addTask`
   * (the `onAddTask` it gives this input) read that text, it would be appended
   * unchanged. The app's own `addTask` takes no argument and reads a ref that
   * this input never attaches, so there nothing is added.
   */
  lemma SubmitThenAdd(st: InputState, state: seq<Task>, newId: string)
    ensures HandleSubmit(st).added.Some? ==>
      var d := HandleSubmit(st).added.value;
      && UseTasks.Dispatch(state, TaskApp.AddTask(d), newId) == state + [Task(newId, d, false)]
      && Trim(d) == d
      && ValidateTask(d) == None
  {
    if HandleSubmit(st).added.Some? {
      var d := HandleSubmit(st).added.value;
      TrimIdempotent(st.value);
      TrimEmpty(d);
    }
  }
}
