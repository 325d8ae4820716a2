/**
 * Sequences of user actions applied to the store, one after another, as the
 * single-threaded event loop runs them. Used to state what holds across a
 * whole session: the invariant, the monotone counter, and that ids handed
 * out are increasing and never handed out twice.
 */
module Trace {
  import opened Text
  import opened Tasks
  import opened Store

  /** One user action: submitting the entry form, ticking a checkbox, or
      pressing a delete button. */
  datatype Op = AddOp(input: string) | ToggleOp(id: int) | DeleteOp(id: int)

  function Step(st: AppState, op: Op): (r: AppState) {
    match op
    case AddOp(input) => Add(st, input)
    case ToggleOp(id) => Toggle(st, id).state
    case DeleteOp(id) => Delete(st, id)
  }

  /** The state after running `ops` in order from `st`. */
  function Run(st: AppState, ops: seq<Op>): (r: AppState)
    decreases |ops|
  {
    if |ops| == 0 then st else Run(Step(st, ops[0]), ops[1..])
  }

  /** The ids handed out while running `ops` from `st`, in order: one per
      add whose text does not trim to nothing. */
  function Issued(st: AppState, ops: seq<Op>): (ids: seq<int>)
    decreases |ops|
  {
    if |ops| == 0 then []
    else
      var handed := if ops[0].AddOp? && !AllTrimmable(ops[0].input) then [st.counter] else [];
      handed + Issued(Step(st, ops[0]), ops[1..])
  }

  /** Every run keeps the store invariant. */
  lemma {:induction false} RunPreservesValid(st: AppState, ops: seq<Op>)
    requires Valid(st)
    ensures Valid(Run(st, ops))
    decreases |ops|
  {
    if |ops| > 0 {
      match ops[0] {
        case AddOp(input) => AddPreservesValid(st, input);
        case ToggleOp(id) => TogglePreservesValid(st, id);
        case DeleteOp(id) => DeletePreservesValid(st, id);
      }
      RunPreservesValid(Step(st, ops[0]), ops[1..]);
    }
  }

  /** Over a run the counter only grows, by exactly the number of ids handed
      out, and those ids are consecutive from the starting counter, so they
      strictly increase and none is handed out twice. */
  lemma {:induction false} IssuedIdsIncrease(st: AppState, ops: seq<Op>)
    ensures Run(st, ops).counter == st.counter + |Issued(st, ops)|
    ensures forall k :: 0 <= k < |Issued(st, ops)| ==> Issued(st, ops)[k] == st.counter + k
    decreases |ops|
  {
    if |ops| > 0 {
      IssuedIdsIncrease(Step(st, ops[0]), ops[1..]);
    }
  }

  /** An id handed out during a run differs from every id present at its
      start, even if that task was deleted along the way. */
  lemma IssuedIdsAreNew(st: AppState, ops: seq<Op>, x: int)
    requires CounterAboveIds(st)
    requires x in Issued(st, ops)
    ensures x !in Ids(st.tasks)
  {
    IssuedIdsIncrease(st, ops);
  }

  /** Every task present after a run was either present at its start or
      created during it with one of the ids handed out. */
  lemma {:induction false} RunIdsComeFromIssued(st: AppState, ops: seq<Op>, x: int)
    requires x in Ids(Run(st, ops).tasks)
    ensures x in Ids(st.tasks) || x in Issued(st, ops)
    decreases |ops|
  {
    if |ops| > 0 {
      var next := Step(st, ops[0]);
      RunIdsComeFromIssued(next, ops[1..], x);
      if x in Ids(next.tasks) {
        match ops[0]
        case AddOp(input) =>
          if !AllTrimmable(input) {
            var k :| 0 <= k < |next.tasks| && Ids(next.tasks)[k] == x;
            if k < |st.tasks| {
              assert Ids(st.tasks)[k] == x;
            }
          }
        case ToggleOp(id) =>
          assert Ids(next.tasks) == Ids(st.tasks);
        case DeleteOp(id) =>
          DeleteAddsNoId(st, id, x);
      }
    }
  }
}
