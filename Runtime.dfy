/**
 * The runtime half of the crate: `FancyGuard`, which the rewritten code
 * creates after each span. It enters the span when it is made, leaves it
 * while an awaited future is suspended inside `wrap` and re-enters it after,
 * and on drop leaves the span only if it is still inside it.
 *
 * The subscriber's `enter` and `exit` calls for the guard's span are
 * recorded as a log of events. `pending` counts the `wrap` calls that have
 * left the span and not yet come back, and `live` says whether the guard is
 * not yet dropped; both are bookkeeping of the model, not of the program.
 */
module Runtime {
  import opened Wrappers
  import opened Seqs

  /** A call the guard makes on the subscriber for its span. */
  datatype Event = Enter | Exit

  /** Appending one event adds one to its own count and leaves the other's. */
  lemma CountSnoc(log: seq<Event>, e: Event, x: Event)
    ensures Count(log + [e], x) == Count(log, x) + (if e == x then 1 else 0)
  {
    CountAppend(log, [e], x);
    CountSingle(e, x);
  }

  /** Enters minus exits: how deep in the span the log leaves the current task. */
  function Net(log: seq<Event>): int {
    Count(log, Enter) - Count(log, Exit)
  }

  /** The guard as the model sees it: its field, the subscriber log and the bookkeeping. */
  datatype GuardState = GuardState(entered: bool, log: seq<Event>, pending: nat, live: bool)

  /** The operations on a guard after `new`: the two halves of `wrap` and the drop. */
  datatype Op = WrapBegin | WrapEnd | Release

  /** `FancyGuard::new`: enters the span and records that it did. */
  function Created(): GuardState {
    GuardState(true, [Enter], 0, true)
  }

  /** What can happen next: nothing after the drop, and a `wrap` only finishes after it started. */
  predicate Enabled(g: GuardState, op: Op) {
    g.live && (op == WrapEnd ==> g.pending > 0)
  }

  /**
   * One operation: `wrap` exits and clears `entered` before awaiting, and
   * enters and sets it again after; `drop` exits only if `entered` is set.
   */
  function Step(g: GuardState, op: Op): GuardState
    requires Enabled(g, op)
  {
    match op
    case WrapBegin => GuardState(false, g.log + [Exit], g.pending + 1, true)
    case WrapEnd => GuardState(true, g.log + [Enter], g.pending - 1, true)
    case Release => GuardState(g.entered, g.log + (if g.entered then [Exit] else []), g.pending, false)
  }

  /** A guard created and then put through `ops`, or `None` if some operation was not possible. */
  function Run(ops: seq<Op>): Option<GuardState> {
    if ops == [] then Some(Created())
    else
      match Run(ops[..|ops| - 1])
      case None => None
      case Some(g) => if Enabled(g, ops[|ops| - 1]) then Some(Step(g, ops[|ops| - 1])) else None
  }

  /**
   * What holds of every guard, however its wraps interleave: each unfinished
   * `wrap` has left the span once, a drop while inside has left it once more,
   * and with no `wrap` unfinished the guard is inside.
   */
  predicate Consistent(g: GuardState) {
    Net(g.log) == 1 - g.pending - (if !g.live && g.entered then 1 else 0) &&
    (g.pending == 0 ==> g.entered)
  }

  lemma StepConsistent(g: GuardState, op: Op)
    requires Enabled(g, op) && Consistent(g)
    ensures Consistent(Step(g, op))
  {
    match op
    case WrapBegin =>
      CountSnoc(g.log, Exit, Enter);
      CountSnoc(g.log, Exit, Exit);
    case WrapEnd =>
      CountSnoc(g.log, Enter, Enter);
      CountSnoc(g.log, Enter, Exit);
    case Release =>
      if g.entered {
        CountSnoc(g.log, Exit, Enter);
        CountSnoc(g.log, Exit, Exit);
      } else {
        assert g.log + [] == g.log;
      }
  }

  /** Every reachable guard is consistent. */
  lemma {:induction false} RunConsistent(ops: seq<Op>)
    requires Run(ops).Some?
    ensures Consistent(Run(ops).value)
  {
    if ops == [] {
      assert [Enter][..0] == [];
    } else {
      RunConsistent(ops[..|ops| - 1]);
      StepConsistent(Run(ops[..|ops| - 1]).value, ops[|ops| - 1]);
    }
  }

  /** At most one `wrap` of the guard is suspended at a time: no `wrap` starts while another is unfinished. */
  predicate OneAtATime(g: GuardState) {
    g.pending <= 1 && g.entered == (g.pending == 0)
  }

  /** A `wrap` that starts only while none is suspended keeps wraps one at a time. */
  lemma StepOneAtATime(g: GuardState, op: Op)
    requires Enabled(g, op) && OneAtATime(g)
    requires op == WrapBegin ==> g.pending == 0
    ensures OneAtATime(Step(g, op))
  {
  }

  /** The operations of `ops` start a `wrap` only when none is suspended. */
  predicate Sequential(ops: seq<Op>)
    requires Run(ops).Some?
  {
    forall i :: 0 <= i < |ops| && ops[i] == WrapBegin ==>
      Run(ops[..i]).Some? && Run(ops[..i]).value.pending == 0
  }

  lemma RunPrefix(ops: seq<Op>, k: nat)
    requires Run(ops).Some? && k <= |ops|
    ensures Run(ops[..k]).Some?
    decreases |ops| - k
  {
    if k < |ops| {
      assert ops[..|ops| - 1][..k] == ops[..k];
      RunPrefix(ops[..|ops| - 1], k);
    } else {
      assert ops[..k] == ops;
    }
  }

  lemma {:induction false} RunOneAtATime(ops: seq<Op>)
    requires Run(ops).Some? && Sequential(ops)
    ensures OneAtATime(Run(ops).value)
  {
    if ops != [] {
      var prefix := ops[..|ops| - 1];
      RunPrefix(ops, |ops| - 1);
      forall i | 0 <= i < |prefix| && prefix[i] == WrapBegin
        ensures Run(prefix[..i]).Some? && Run(prefix[..i]).value.pending == 0
      {
        assert prefix[..i] == ops[..i];
        assert ops[i] == WrapBegin;
      }
      RunOneAtATime(prefix);
      assert ops[..|ops|] == ops;
      StepOneAtATime(Run(prefix).value, ops[|ops| - 1]);
    }
  }

  /**
   * With wraps one at a time, the guard is inside its span exactly when
   * `entered` is set, and once dropped it has left the span as often as it
   * entered it, also when the drop comes while a `wrap` is suspended.
   */
  lemma SequentialBalanced(ops: seq<Op>)
    requires Run(ops).Some? && Sequential(ops)
    ensures var g := Run(ops).value;
      (g.live ==> Net(g.log) == if g.entered then 1 else 0) &&
      (!g.live ==> Count(g.log, Enter) == Count(g.log, Exit))
  {
    RunConsistent(ops);
    RunOneAtATime(ops);
  }

  /**
   * A guard whose `wrap` is nested inside another `wrap` of the same guard,
   * both abandoned, exits its span once more than it entered it.
   */
  lemma NestedWrapsUnbalanced()
    ensures Run([WrapBegin, WrapBegin, Release]).Some?
    ensures var g := Run([WrapBegin, WrapBegin, Release]).value;
      Count(g.log, Exit) == Count(g.log, Enter) + 1
  {
    var ops := [WrapBegin, WrapBegin, Release];
    assert ops[..2] == [WrapBegin, WrapBegin] && ops[..2][..1] == [WrapBegin] && [WrapBegin][..0] == [];
    assert Run([WrapBegin]).value.pending == 1;
    assert Run(ops[..2]).value.pending == 2 && !Run(ops[..2]).value.entered;
    RunConsistent(ops);
  }

  /** `FancyGuard`: the `entered` flag, the subscriber log, and the model's bookkeeping. */
  class FancyGuard {
    var entered: bool
    var log: seq<Event>
    ghost var pending: nat
    ghost var live: bool

    ghost function State(): GuardState
      reads this
    {
      GuardState(entered, log, pending, live)
    }

    /** `FancyGuard::new`: enters the span, `entered` starts out set. */
    constructor()
      ensures State() == Created()
    {
      entered := true;
      log := [Enter];
      pending := 0;
      live := true;
    }

    /** The part of `wrap` before the inner future is awaited: exit the span, clear `entered`. */
    method BeginWrap()
      requires live
      modifies this
      ensures State() == Step(old(State()), WrapBegin)
    {
      log := log + [Exit];
      entered := false;
      pending := pending + 1;
    }

    /** The part of `wrap` after the inner future completed: enter the span, set `entered`, return the output. */
    method EndWrap<T>(output: T) returns (r: T)
      requires live && pending > 0
      modifies this
      ensures r == output
      ensures State() == Step(old(State()), WrapEnd)
    {
      log := log + [Enter];
      entered := true;
      pending := pending - 1;
      r := output;
    }

    /** `wrap` around a future that completes with `output`: both halves, output unchanged. */
    method Wrap<T>(output: T) returns (r: T)
      requires live
      modifies this
      ensures r == output
      ensures State() == Step(Step(old(State()), WrapBegin), WrapEnd)
    {
      BeginWrap();
      r := EndWrap(output);
    }

    /** `Drop`: exits the span only if `entered` is still set. */
    method Drop()
      requires live
      modifies this
      ensures State() == Step(old(State()), Release)
    {
      if entered {
        log := log + [Exit];
      }
      live := false;
    }
  }

  /** A guard dropped while its `wrap` is suspended (the future was abandoned): the drop does not exit again. */
  method AbandonedWrap() returns (log: seq<Event>)
    ensures log == [Enter, Exit]
  {
    var guard := new FancyGuard();
    guard.BeginWrap();
    guard.Drop();
    log := guard.log;
  }

  /** A guard whose `wrap` completes before the drop: exit and re-enter around the await, exit on drop. */
  method CompletedWrap() returns (log: seq<Event>)
    ensures log == [Enter, Exit, Enter, Exit]
  {
    var guard := new FancyGuard();
    var _ := guard.Wrap(0);
    guard.Drop();
    log := guard.log;
  }
}
