/**
 The run-time system taken through a whole program: what HandlerRuns proves of the state
 machine holds of the wrapper objects.
 */
module HandlerReplay {
  import opened HandlerSpec
  import opened HandlerRuns
  import opened HandlerEnds
  import opened HandlerNested
  import opened HandlerRuntime

  /** n steps, or fewer if the program ends or is about to do something undefined; s is the
      state at the start and t the one at the end. */
  method Replay(r: Runtime, ghost s: State, n: nat) returns (ghost t: State)
    requires r.Valid() && r.View() == s && Safe(s, n)
    modifies r, r.handlers.Values
    ensures r.Valid() && r.View() == t && t == Steps(s, n)
    decreases n
  {
    if n > 0 && CanStep(r.View()) {
      r.StepOnce();
      t := Replay(r, Step(s), n - 1);
    } else {
      t := s;
    }
  }

  /** A program that runs to its end leaves allocated exactly the blocks its wrapper objects
      still hold, and has called no handler twice. */
  method Execute(ops: seq<Op>, n: nat) returns (r: Runtime)
    ensures Inv(Start(ops))
    ensures r.Valid() && r.View() == After(Start(ops), n)
    ensures r.todo == [] ==> r.heap.Keys == OwnedBlocks(r.Wrappers())
    ensures forall b: nat :: multiset(r.log)[Invoked(b)] <= multiset(r.log)[Freed(b)] <= 1
  {
    r := new Runtime(ops);
    StartHolds(ops);
    InvIsSafe(Start(ops), n);
    ghost var t := Replay(r, Start(ops), n);
    Ownership(ops, n);
    if r.todo == [] {
      Quiescent(ops, n);
    }
  }

  /** The wrapper objects taken through a whole program. It always stops: at the end, at an
      exception that nothing catches, or before an operation that C++ leaves undefined. */
  method ExecuteAll(ops: seq<Op>) returns (r: Runtime)
    ensures Inv(Start(ops))
    ensures r.Valid() && r.View() == After(Start(ops), Bound(ops)) && !CanStep(r.View())
    ensures r.todo == [] ==> r.heap.Keys == OwnedBlocks(r.Wrappers())
    ensures forall b: nat :: multiset(r.log)[Invoked(b)] <= multiset(r.log)[Freed(b)] <= 1
    ensures MemoryOf(r.View()) == Meaning(ops).m && (r.todo == [] <==> Meaning(ops).exit.Normal?)
  {
    r := Execute(ops, Bound(ops));
    RunsEnd(ops, Bound(ops));
    MachineEvaluates(ops);
  }
}
