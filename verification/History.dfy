/** Any sequence of applies and teardowns, each possibly cut short, over changing manifests and flags. */
module History {
  import opened Resources
  import opened DependencyGraph
  import opened Planner
  import opened ApplyMachine
  import opened ApplyResults
  import opened DestroyEngine

  /** One command and the point it got to: a reachable state of an apply, or the first entries of a teardown. */
  datatype Operation =
    | ApplyOp(inp: Inputs, run: Run, stopped: Sys)
    | DestroyOp(td: Teardown, plan: Plan, taken: nat)

  ghost predicate Happens(op: Operation) {
    match op
    case ApplyOp(inp, run, stopped) => Applies(inp, run) && Reachable(run, stopped)
    case DestroyOp(td, plan, taken) => Accepted(td.g) && TeardownPlanOf(td, plan) && taken <= |plan.entries|
  }

  function RecordsBefore(op: Operation): Recorded {
    match op case ApplyOp(inp, _, _) => inp.st case DestroyOp(td, _, _) => td.init
  }

  ghost function RecordsAfter(op: Operation): Recorded
    requires Happens(op)
  {
    match op
    case ApplyOp(_, _, stopped) => stopped.resources
    case DestroyOp(td, plan, taken) => DestroyedUpTo(td, plan.entries, taken).results.st
  }

  ghost predicate Approves(op: Operation, k: Key) {
    match op
    case ApplyOp(inp, run, _) => DeletionApproved(inp, run.flags, k)
    case DestroyOp(td, _, _) => DestroyApproved(td, k)
  }

  /** Each operation starts from the records the one before it left. */
  ghost predicate HistoryFrom(ops: seq<Operation>, st: Recorded) {
    && (forall i :: 0 <= i < |ops| ==> Happens(ops[i]))
    && (forall i :: 0 < i < |ops| ==> RecordsBefore(ops[i]) == RecordsAfter(ops[i - 1]))
    && (ops != [] ==> RecordsBefore(ops[0]) == st)
  }

  ghost function RecordsAtEnd(ops: seq<Operation>, st: Recorded): Recorded
    requires HistoryFrom(ops, st)
  {
    if ops == [] then st else RecordsAfter(ops[|ops| - 1])
  }

  lemma OperationApproves(op: Operation, k: Key)
    requires Happens(op) && k in RecordsBefore(op) && k !in RecordsAfter(op)
    ensures Approves(op, k)
  {
    match op
    case ApplyOp(inp, run, stopped) => NoUnapprovedDeletion(inp, run, stopped, k);
    case DestroyOp(td, plan, taken) => NoUnapprovedDestroy(td, plan, taken, k);
  }

  /** Over any history, a resource that is no longer recorded was removed by an operation entitled to remove it. */
  lemma {:induction false} EveryLossWasApproved(ops: seq<Operation>, st: Recorded, k: Key) returns (i: nat)
    requires HistoryFrom(ops, st) && k in st && k !in RecordsAtEnd(ops, st)
    ensures i < |ops| && k in RecordsBefore(ops[i]) && k !in RecordsAfter(ops[i]) && Approves(ops[i], k)
  {
    var n := |ops| - 1;
    if k in RecordsBefore(ops[n]) {
      i := n;
      OperationApproves(ops[n], k);
    } else {
      i := EveryLossWasApproved(ops[..n], st, k);
    }
  }
}
