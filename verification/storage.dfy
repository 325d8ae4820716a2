/**
 * Saving the store to, and restoring it from, the browser's key-value slot.
 * The slot is modelled after parsing: what `JSON.parse` produced, or that
 * there was nothing to parse, or that parsing failed. On a successful load
 * the counter is raised above every loaded id.
 */
module Storage {
  import opened Wrappers
  import opened Tasks
  import opened Store

  /** The parsed record: either field may be missing (or `null`). */
  datatype Stored = Stored(tasks: Option<seq<Task>>, counter: Option<int>)

  /** The storage slot as `loadTasks` finds it. `Empty` is a missing or empty
      string. `Corrupt` is every slot whose reading throws and so lands in the
      fallback to the fresh state: text that does not parse; text that parses
      to `null`; a `tasks` field that is truthy but not an array; a task entry
      that is `null`; or more tasks than the engine lets `Math.max` take as
      spread arguments. */
  datatype Slot = Empty | Corrupt | Saved(data: Stored)

  /** `saveTasks`: the record written to storage. Both fields are present,
      and loading the record back restores any state whose counter is at
      least 1 and above every id, whether or not its ids are distinct. */
  function Save(st: AppState): (r: Stored)
    ensures r.tasks.Some? && r.counter.Some?
    ensures CounterAboveIds(st) ==> Load(Saved(r)) == st
  {
    Stored(Some(st.tasks), Some(st.counter))
  }

  /** `Math.max(...ids, 0)`: the largest id, or 0 when there is none larger. */
  function MaxId(tasks: seq<Task>): (m: int)
    ensures m >= 0
    ensures forall k :: 0 <= k < |tasks| ==> tasks[k].id <= m
    ensures m == 0 || m in Ids(tasks)
  {
    if |tasks| == 0 then 0
    else
      var rest := MaxId(tasks[1..]);
      assert Ids(tasks) == [tasks[0].id] + Ids(tasks[1..]);
      if tasks[0].id > rest then tasks[0].id else rest
  }

  /** The stored counter as `parsedData.taskIdCounter || 1` reads it: a
      missing counter and a counter of 0 are both falsy and become 1. */
  function StoredCounter(d: Stored): (c: int)
    ensures c != 0
    ensures d.counter.None? || d.counter == Some(0) ==> c == 1
    ensures d.counter.Some? && d.counter.value != 0 ==> c == d.counter.value
  {
    match d.counter
    case None => 1
    case Some(c) => if c == 0 then 1 else c
  }

  /** `loadTasks`: nothing stored, or a record that cannot be read, leaves
      the fresh state. Otherwise the stored tasks (or none) are taken as they
      are, and the counter becomes the larger of the stored counter and one
      more than the largest id. The counter is then at least 1, at least the
      stored counter, above every loaded id, and no larger than needed: it is
      the stored counter, 1, or one more than some loaded id. */
  function Load(slot: Slot): (r: AppState)
    ensures !slot.Saved? ==> r == Initial
    ensures slot.Saved? ==> r.tasks == slot.data.tasks.GetOr([])
    ensures r.counter >= 1
    ensures slot.Saved? ==> r.counter >= StoredCounter(slot.data)
    ensures CounterAboveIds(r)
    ensures slot.Saved? ==>
      r.counter == StoredCounter(slot.data) || r.counter == 1 || r.counter - 1 in Ids(r.tasks)
  {
    match slot
    case Empty => Initial
    case Corrupt => Initial
    case Saved(d) =>
      var tasks := d.tasks.GetOr([]);
      var counter := StoredCounter(d);
      var maxId := MaxId(tasks);
      AppState(tasks, if counter > maxId + 1 then counter else maxId + 1)
  }

  /** A loaded state satisfies the store invariant whenever the loaded ids are
      distinct. */
  lemma LoadValid(slot: Slot)
    requires slot.Saved? ==> IdsDistinct(slot.data.tasks.GetOr([]))
    ensures Valid(Load(slot))
  {
  }

  /** Loading is stable: saving what was loaded and loading it again gives
      the same state, even when the loaded ids repeat. */
  lemma ReloadIsStable(slot: Slot)
    ensures Load(Saved(Save(Load(slot)))) == Load(slot)
  {
  }
}
