/**
 The recording state of a D3D11 command list. On this backend Begin, End,
 Submit and Reset always succeed and set the state outright, whatever it was.
 */
module Lifecycle {
  import opened Options

  datatype CommandListState = Idle | Recording | Ended | Submitted

  datatype Op = Begin | End | Submit | Reset

  /** The state an operation sets. */
  function Target(op: Op): CommandListState {
    match op
    case Begin => Recording
    case End => Ended
    case Submit => Submitted
    case Reset => Idle
  }

  /** One operation: it reports success and sets its state, whatever the state before. */
  function Apply(s: CommandListState, op: Op): (r: (bool, CommandListState))
    ensures r.0
    ensures r.1 == Target(op)
  {
    (true, Target(op))
  }

  /** The state before an operation has no influence on its outcome. */
  lemma OutcomeIgnoresState(s: CommandListState, s': CommandListState, op: Op)
    ensures Apply(s, op) == Apply(s', op)
  {
  }

  /** The state after a series of operations; each reports success. */
  function ApplyAll(s: CommandListState, ops: seq<Op>): (r: CommandListState)
    decreases |ops|
  {
    if ops == [] then s else ApplyAll(Apply(s, ops[0]).1, ops[1..])
  }

  /** The state after a non-empty series is set by its last operation alone. */
  lemma {:induction false} LastOpDecides(s: CommandListState, ops: seq<Op>)
    requires ops != []
    ensures ApplyAll(s, ops) == Target(ops[|ops| - 1])
    decreases |ops|
  {
    if |ops| > 1 {
      LastOpDecides(Apply(s, ops[0]).1, ops[1..]);
    }
  }

  /**
   The order a command list is meant to follow: Begin from idle, End while
   recording, Submit once ended; Reset returns to idle from any state.
   */
  predicate Expected(s: CommandListState, op: Op) {
    match op
    case Begin => s == Idle
    case End => s == Recording
    case Submit => s == Ended
    case Reset => true
  }

  /** The state an operation leads to in the intended order, if it is allowed there. */
  function Strict(s: CommandListState, op: Op): (r: Option<CommandListState>)
    ensures r.Some? <==> Expected(s, op)
    ensures r.Some? ==> r.value == Target(op)
  {
    if Expected(s, op) then Some(Target(op)) else None
  }

  /**
   The backend agrees with the intended order wherever that order allows an
   operation, and also accepts every operation the order forbids.
   */
  lemma PermissiveRefinesStrict(s: CommandListState, op: Op)
    ensures Strict(s, op).Some? ==> Strict(s, op).value == Apply(s, op).1
    ensures Apply(s, op).0
  {
  }

  /** Reset is allowed in every state, and both orders bring the list back to idle. */
  lemma ResetFromAnyState(s: CommandListState)
    ensures Strict(s, Reset) == Some(Idle)
    ensures Apply(s, Reset) == (true, Idle)
  {
  }

  /** For instance, ending a list that never began succeeds. */
  lemma EndWithoutBeginSucceeds()
    ensures !Expected(Idle, End) && Apply(Idle, End) == (true, Ended)
  {
  }
}
