/**
 * The task store of the to-do application: an ordered task list and the id
 * counter, changed only by adding, toggling and deleting tasks. Each
 * operation is a pure function from the old state to the new one; saving to
 * storage and re-rendering, which the application does after every change,
 * are left to the caller.
 */
module Store {
  import opened Text
  import opened Tasks

  /** The application's state: the task list in insertion order and the id
      the next added task will receive. */
  datatype AppState = AppState(tasks: seq<Task>, counter: int)

  /** The state a fresh application starts from. */
  const Initial := AppState([], 1)

  /** The counter is at least 1 and above every id present: what a load
      establishes. */
  predicate CounterAboveIds(st: AppState) {
    && st.counter >= 1
    && forall k :: 0 <= k < |st.tasks| ==> st.tasks[k].id < st.counter
  }

  /** Ids are distinct, all below the counter, and the counter is at least 1. */
  predicate Valid(st: AppState) {
    CounterAboveIds(st) && IdsDistinct(st.tasks)
  }

  lemma InitialValid()
    ensures Valid(Initial) && IdsAscending(Initial.tasks) && TextsTrimmed(Initial.tasks)
  {
  }

  /** `generateTaskId`: hands out the current counter and advances it. */
  function GenerateId(st: AppState): (r: (AppState, int))
    ensures r.1 == st.counter && r.0.counter == r.1 + 1
    ensures r.0.tasks == st.tasks
    ensures CounterAboveIds(st) ==> r.1 !in Ids(st.tasks) && CounterAboveIds(r.0)
  {
    (st.(counter := st.counter + 1), st.counter)
  }

  /** `handleAddTask`: the typed text is trimmed; text that trims to nothing is
      ignored. Otherwise a new incomplete task carrying the trimmed text and
      the next id is appended, and the counter moves on by one. */
  function Add(st: AppState, input: string): (r: AppState)
    ensures r == st <==> AllTrimmable(input)
    ensures !AllTrimmable(input) ==>
      && r.counter == st.counter + 1
      && |r.tasks| == |st.tasks| + 1
      && r.tasks[..|st.tasks|] == st.tasks
      && r.tasks[|st.tasks|] == Task(st.counter, Trim(input), false)
  {
    var text := Trim(input);
    if text == [] then st
    else
      var (st', id) := GenerateId(st);
      st'.(tasks := st.tasks + [Task(id, text, false)])
  }

  /** `after` is `before` with the completion flag of the task at `i`
      flipped and everything else — length, order, ids, texts, every other
      flag — kept. */
  predicate FlippedAt(before: seq<Task>, after: seq<Task>, i: int) {
    && |after| == |before|
    && forall k :: 0 <= k < |before| ==>
         && after[k].id == before[k].id
         && after[k].text == before[k].text
         && after[k].completed == (if k == i then !before[k].completed else before[k].completed)
  }

  /** What a toggle leaves behind, and whether it starts the celebration. */
  datatype Toggled = Toggled(state: AppState, celebrate: bool)

  /** `toggleTask`: flips the first task carrying `id`; an unknown id changes
      nothing. The celebration starts when the flip took the task from
      incomplete to complete and every task is then completed. */
  function Toggle(st: AppState, id: int): (r: Toggled)
    ensures r.state.counter == st.counter
    ensures id !in Ids(st.tasks) ==> r.state == st && !r.celebrate
    ensures id in Ids(st.tasks) ==> FlippedAt(st.tasks, r.state.tasks, FindIndex(st.tasks, id))
    ensures r.celebrate ==> AllCompleted(r.state.tasks)
  {
    var i := FindIndex(st.tasks, id);
    if i < 0 then Toggled(st, false)
    else
      var task := st.tasks[i];
      var wasCompleted := task.completed;
      var tasks := st.tasks[i := task.(completed := !wasCompleted)];
      Toggled(st.(tasks := tasks), !wasCompleted && tasks[i].completed && AllCompleted(tasks))
  }

  /** `after` is `before` with the element at `i` cut out and the others kept
      in their order. */
  predicate RemovedAt(before: seq<Task>, after: seq<Task>, i: int) {
    && 0 <= i < |before|
    && |after| + 1 == |before|
    && (forall k :: 0 <= k < i ==> after[k] == before[k])
    && (forall k :: i <= k < |after| ==> after[k] == before[k + 1])
  }

  /** `deleteTask`: removes the first task carrying `id`; an unknown id
      changes nothing. The counter is never touched. */
  function Delete(st: AppState, id: int): (r: AppState)
    ensures r.counter == st.counter
    ensures id !in Ids(st.tasks) ==> r == st
    ensures id in Ids(st.tasks) ==> RemovedAt(st.tasks, r.tasks, FindIndex(st.tasks, id))
    ensures multiset(r.tasks) <= multiset(st.tasks)
  {
    var i := FindIndex(st.tasks, id);
    if i < 0 then st
    else
      assert st.tasks == st.tasks[..i] + [st.tasks[i]] + st.tasks[i + 1..];
      st.(tasks := st.tasks[..i] + st.tasks[i + 1..])
  }

  // ---------------------------------------------------------------------
  // The celebration condition

  /** The celebration starts exactly when the task being toggled was the one
      incomplete task left: it is present, it was incomplete, and every other
      task was already completed. */
  lemma CelebrateIffLastPending(st: AppState, id: int)
    ensures Toggle(st, id).celebrate <==>
      && id in Ids(st.tasks)
      && !st.tasks[FindIndex(st.tasks, id)].completed
      && forall k :: 0 <= k < |st.tasks| && k != FindIndex(st.tasks, id) ==> st.tasks[k].completed
  {
  }

  /** Marking a task incomplete never starts the celebration. */
  lemma UncompleteNeverCelebrates(st: AppState, id: int)
    requires id in Ids(st.tasks) && st.tasks[FindIndex(st.tasks, id)].completed
    ensures !Toggle(st, id).celebrate
    ensures !Toggle(st, id).state.tasks[FindIndex(st.tasks, id)].completed
  {
  }

  // ---------------------------------------------------------------------
  // Toggle and delete, stated in terms of ids

  /** Toggling the same id twice gives back the state it started from. */
  lemma ToggleTwice(st: AppState, id: int)
    ensures Toggle(Toggle(st, id).state, id).state == st
  {
  }

  /** Deleting `id` keeps every task that carries another id. */
  lemma DeleteKeepsOthers(st: AppState, id: int)
    ensures forall t :: t in st.tasks && t.id != id ==> t in Delete(st, id).tasks
  {
  }

  /** Deleting never brings in an id: every id left was there before. */
  lemma DeleteAddsNoId(st: AppState, id: int, x: int)
    requires x in Ids(Delete(st, id).tasks)
    ensures x in Ids(st.tasks)
  {
  }

  /** With distinct ids, deleting `id` removes exactly that id: it is gone
      afterwards and every other id is still present. */
  lemma DeleteRemovesExactlyId(st: AppState, id: int, x: int)
    requires IdsDistinct(st.tasks)
    ensures x in Ids(Delete(st, id).tasks) <==> x in Ids(st.tasks) && x != id
  {
    var r := Delete(st, id);
    if x in Ids(r.tasks) {
      DeleteAddsNoId(st, id, x);
    }
    DeleteKeepsOthers(st, id);
  }

  // ---------------------------------------------------------------------
  // Invariant preservation

  /** Adding keeps ids distinct and below the counter. */
  lemma AddPreservesValid(st: AppState, input: string)
    requires Valid(st)
    ensures Valid(Add(st, input))
    ensures Add(st, input).counter >= st.counter
  {
  }

  /** Toggling keeps ids distinct and below the counter. */
  lemma TogglePreservesValid(st: AppState, id: int)
    requires Valid(st)
    ensures Valid(Toggle(st, id).state)
  {
  }

  /** Deleting keeps ids distinct and below the counter. */
  lemma DeletePreservesValid(st: AppState, id: int)
    requires Valid(st)
    ensures Valid(Delete(st, id))
  {
  }

  /** Adding keeps the ids in ascending order and every stored text
      non-empty and trimmed. */
  lemma AddPreservesOrderAndText(st: AppState, input: string)
    requires Valid(st) && IdsAscending(st.tasks) && TextsTrimmed(st.tasks)
    ensures IdsAscending(Add(st, input).tasks) && TextsTrimmed(Add(st, input).tasks)
  {
    TrimIdempotent(input);
  }

  /** Toggling keeps the ids in ascending order and every stored text
      non-empty and trimmed. */
  lemma TogglePreservesOrderAndText(st: AppState, id: int)
    requires IdsAscending(st.tasks) && TextsTrimmed(st.tasks)
    ensures IdsAscending(Toggle(st, id).state.tasks) && TextsTrimmed(Toggle(st, id).state.tasks)
  {
  }

  /** Deleting keeps the ids in ascending order and every stored text
      non-empty and trimmed. */
  lemma DeletePreservesOrderAndText(st: AppState, id: int)
    requires IdsAscending(st.tasks) && TextsTrimmed(st.tasks)
    ensures IdsAscending(Delete(st, id).tasks) && TextsTrimmed(Delete(st, id).tasks)
  {
  }
}
