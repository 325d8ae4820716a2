/**
 * A task and the read-only queries the application runs over its task list:
 * lookup by id, the completion counts behind `getStats`, the "every task is
 * done" test and the text of the count display.
 */
module Tasks {
  import opened Text
  import opened Wrappers

  /** One to-do item. The creation timestamp the application also stores is
      never read by the store's logic and is not part of this model. */
  datatype Task = Task(id: int, text: string, completed: bool)

  /** The ids of `tasks`, in list order. */
  function Ids(tasks: seq<Task>): (ids: seq<int>)
    ensures |ids| == |tasks|
    ensures forall k :: 0 <= k < |tasks| ==> ids[k] == tasks[k].id
  {
    seq(|tasks|, k requires 0 <= k < |tasks| => tasks[k].id)
  }

  /** No two tasks share an id. */
  predicate IdsDistinct(tasks: seq<Task>) {
    forall j, k :: 0 <= j < k < |tasks| ==> tasks[j].id != tasks[k].id
  }

  /** Ids appear in strictly increasing order along the list. */
  predicate IdsAscending(tasks: seq<Task>) {
    forall j, k :: 0 <= j < k < |tasks| ==> tasks[j].id < tasks[k].id
  }

  /** Every stored text is non-empty and already trimmed. */
  predicate TextsTrimmed(tasks: seq<Task>) {
    forall k :: 0 <= k < |tasks| ==> tasks[k].text != [] && Trim(tasks[k].text) == tasks[k].text
  }

  /** `Array.prototype.findIndex` with the test `t.id === id`: the position of
      the first task carrying `id`, or -1 when no task does. */
  function FindIndex(tasks: seq<Task>, id: int): (r: int)
    ensures -1 <= r < |tasks|
    ensures r == -1 <==> id !in Ids(tasks)
    ensures 0 <= r ==> tasks[r].id == id && forall k :: 0 <= k < r ==> tasks[k].id != id
  {
    if |tasks| == 0 then -1
    else if tasks[0].id == id then 0
    else
      var r := FindIndex(tasks[1..], id);
      assert Ids(tasks) == [tasks[0].id] + Ids(tasks[1..]);
      if r == -1 then -1 else r + 1
  }

  /** The number of completed tasks (`tasks.filter(t => t.completed).length`). */
  function CountCompleted(tasks: seq<Task>): (n: nat)
    ensures n <= |tasks|
  {
    if |tasks| == 0 then 0
    else (if tasks[0].completed then 1 else 0) + CountCompleted(tasks[1..])
  }

  /** The number of tasks not yet completed, counted on its own. */
  function CountPending(tasks: seq<Task>): (n: nat) {
    if |tasks| == 0 then 0
    else (if tasks[0].completed then 0 else 1) + CountPending(tasks[1..])
  }

  /** Every task is either completed or pending. */
  lemma {:induction false} CompletedPlusPending(tasks: seq<Task>)
    ensures CountCompleted(tasks) + CountPending(tasks) == |tasks|
  {
    if |tasks| > 0 {
      CompletedPlusPending(tasks[1..]);
    }
  }

  /** The three numbers `getStats` reports. */
  datatype Stats = Stats(total: nat, completed: nat, pending: int)

  /** `getStats`: the total is the list length, the completed count is the
      number of completed tasks, and the pending count, computed as the
      difference, is never negative and is exactly the number of tasks not
      completed. */
  function GetStats(tasks: seq<Task>): (s: Stats)
    ensures s.total == |tasks|
    ensures s.completed == CountCompleted(tasks)
    ensures s.completed + s.pending == s.total
    ensures 0 <= s.pending && s.pending == CountPending(tasks)
  {
    CompletedPlusPending(tasks);
    var total := |tasks|;
    var completed := CountCompleted(tasks);
    Stats(total, completed, total - completed)
  }

  /** `areAllTasksCompleted`: the list is non-empty and every task is done. */
  predicate AllCompleted(tasks: seq<Task>)
    ensures AllCompleted(tasks) <==> |tasks| > 0 && CountPending(tasks) == 0
  {
    CompletedPlusPending(tasks);
    CountCompletedIsLength(tasks);
    |tasks| > 0 && forall k :: 0 <= k < |tasks| ==> tasks[k].completed
  }

  /** Every task is completed exactly when the completed count reaches the
      length of the list. */
  lemma {:induction false} CountCompletedIsLength(tasks: seq<Task>)
    ensures CountCompleted(tasks) == |tasks| <==> forall k :: 0 <= k < |tasks| ==> tasks[k].completed
  {
    if |tasks| > 0 {
      CountCompletedIsLength(tasks[1..]);
      assert forall k :: 1 <= k < |tasks| ==> tasks[k] == tasks[1..][k - 1];
    }
  }

  /** "All completed" agrees with the statistics: there is at least one task
      and none is pending. */
  lemma AllCompletedIffNonePending(tasks: seq<Task>)
    ensures AllCompleted(tasks) <==> GetStats(tasks).total > 0 && GetStats(tasks).pending == 0
  {
    CountCompletedIsLength(tasks);
  }

  /** `updateTaskCount`: "0" for an empty list, otherwise the completed count
      and the total written in decimal around a slash. */
  function CountDisplay(tasks: seq<Task>): (r: string)
    ensures |tasks| == 0 <==> r == "0"
    ensures AllDigits(r) <==> |tasks| == 0
  {
    if |tasks| == 0 then "0"
    else
      var r := Decimal(CountCompleted(tasks)) + "/" + Decimal(|tasks|);
      assert r[|Decimal(CountCompleted(tasks))|] == '/';
      r
  }

  /** A non-empty run of digits with no leading zero, as `Decimal` writes it. */
  predicate Canonical(digits: string) {
    digits != [] && AllDigits(digits) && (digits == "0" || digits[0] != '0')
  }

  /** Reads a count display back into (completed, total); "0" reads as no
      tasks at all. */
  function ParseCountDisplay(display: string): (r: Option<(nat, nat)>) {
    if display == "0" then Some((0, 0))
    else
      var p := IndexOf(display, '/');
      if p < 0 then None
      else
        var done := display[..p];
        var total := display[p + 1..];
        if && Canonical(done) && Canonical(total) then
          Some((ParseDecimal(done), ParseDecimal(total)))
        else
          None
  }

  /** The count display carries exactly the two statistics it is built from:
      reading it back gives the completed count and the total. Since the
      reader accepts only plain decimal with no leading zeros, this fixes the
      display text exactly. */
  lemma CountDisplayRoundTrip(tasks: seq<Task>)
    ensures ParseCountDisplay(CountDisplay(tasks)) == Some((GetStats(tasks).completed, GetStats(tasks).total))
  {
    if |tasks| > 0 {
      var done := Decimal(CountCompleted(tasks));
      var total := Decimal(|tasks|);
      var r := CountDisplay(tasks);
      assert r == done + "/" + total;
      assert forall k :: 0 <= k < |done| ==> r[k] == done[k];
      assert IndexOf(r, '/') == |done|;
      assert r[..|done|] == done;
      assert r[|done| + 1..] == total;
      ParseDecimalOfDecimal(CountCompleted(tasks));
      ParseDecimalOfDecimal(|tasks|);
    }
  }
}
