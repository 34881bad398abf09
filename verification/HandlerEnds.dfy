/**
 Every run over any_completion_handler wrappers ends: targets are finite programs, each body
 and each destructor runs at most once, and an exception only takes things off the call stack.
 So what holds at the end of a run is reached by every run.
 */
module HandlerEnds {
  import opened Common
  import opened HandlerSpec
  import opened HandlerProof
  import opened HandlerRuns

  // ----- How much is left to do -----

  function OpsWeight(ops: seq<Op>): nat {
    if ops == [] then 0 else OpWeight(ops[0]) + OpsWeight(ops[1..])
  }

  /** The steps an operation can still cause, those of a target it makes included. */
  function OpWeight(op: Op): nat {
    match op
    case Make(_, t) => 1 + (OpsWeight(t.body) + OpsWeight(t.dtor) + 2)
    case Try(ops) => 2 + OpsWeight(ops)
    case _ => 1
  }

  function TargetWeight(t: Target): nat { OpsWeight(t.body) + OpsWeight(t.dtor) + 2 }

  function InstrWeight(i: Instr): nat {
    match i
    case Do(op) => OpWeight(op)
    case EndCall(_) => 2
    case Terminate => 0
    case _ => 1
  }

  function StackWeight(todo: seq<Instr>): nat {
    if todo == [] then 0 else InstrWeight(todo[0]) + StackWeight(todo[1..])
  }

  /** What block b can still put on the stack: both programs of its target while a wrapper
      owns it, and the destructor while the handler runs. */
  function BlockWeight(owned: set<nat>, heap: map<nat, Target>, running: map<nat, Target>, b: nat): nat {
    (if b in owned && b in heap then TargetWeight(heap[b]) else 0)
    + (if b in running then OpsWeight(running[b].dtor) else 0)
  }

  function StoredWeight(n: nat, owned: set<nat>, heap: map<nat, Target>, running: map<nat, Target>): nat {
    if n == 0 then 0
    else StoredWeight(n - 1, owned, heap, running) + BlockWeight(owned, heap, running, n - 1)
  }

  function Weight(s: State): nat {
    StackWeight(s.todo) + StoredWeight(s.next, OwnedBlocks(s.wrappers), s.heap, s.running)
  }

  /** An exception leaves a handler in two steps, of which the first weighs nothing. */
  function Remaining(s: State): nat {
    2 * Weight(s) + if s.todo != [] && s.todo[0].EndCall? then 0 else 1
  }

  lemma {:induction false} StackAppend(a: seq<Instr>, b: seq<Instr>)
    ensures StackWeight(a + b) == StackWeight(a) + StackWeight(b)
  {
    if a == [] {
      assert a + b == b;
    } else {
      assert (a + b)[1..] == a[1..] + b;
      StackAppend(a[1..], b);
    }
  }

  lemma {:induction false} ProgramWeight(ops: seq<Op>)
    ensures StackWeight(Program(ops)) == OpsWeight(ops)
  {
    if ops != [] {
      assert Program(ops)[1..] == Program(ops[1..]);
      ProgramWeight(ops[1..]);
    }
  }

  lemma PushedWeight(ops: seq<Op>, mid: Instr, todo: seq<Instr>)
    ensures StackWeight(Program(ops) + [mid] + todo) == OpsWeight(ops) + InstrWeight(mid) + StackWeight(todo)
  {
    StackAppend(Program(ops) + [mid], todo);
    StackAppend(Program(ops), [mid]);
    ProgramWeight(ops);
    assert [mid][1..] == [];
  }

  /** Unwinding adds at most the exception itself, and that only to leave a handler. */
  lemma {:induction false} UnwoundWeight(todo: seq<Instr>)
    ensures var u := Unwound(todo);
            && (u == [] || !u[0].EndCall? ==> StackWeight(u) <= StackWeight(todo))
            && StackWeight(u) <= StackWeight(todo) + 1
  {
    if todo != [] {
      match todo[0] {
        case Do(_) => UnwoundWeight(todo[1..]);
        case EndCall(_) =>
          var u := [todo[0], Rethrow] + todo[1..];
          assert u[1..] == [Rethrow] + todo[1..] && u[1..][1..] == todo[1..];
        case EndTry =>
        case _ => assert ([Terminate] + todo)[1..] == todo;
      }
    }
  }

  /** Two states of the blocks that differ at b alone. */
  lemma {:induction false} StoredChange(
      n: nat, owned: set<nat>, heap: map<nat, Target>, running: map<nat, Target>,
      owned': set<nat>, heap': map<nat, Target>, running': map<nat, Target>, b: nat)
    requires forall i: nat :: i < n && i != b ==>
               BlockWeight(owned, heap, running, i) == BlockWeight(owned', heap', running', i)
    ensures StoredWeight(n, owned', heap', running')
            + (if b < n then BlockWeight(owned, heap, running, b) else 0)
            == StoredWeight(n, owned, heap, running)
            + (if b < n then BlockWeight(owned', heap', running', b) else 0)
  {
    if n > 0 {
      StoredChange(n - 1, owned, heap, running, owned', heap', running', b);
    }
  }

  // ----- Each step leaves less to do -----

  /** s and t are before and after a step; the stacks below what the step took and put. */
  lemma Lighter(s: State, t: State)
    requires Weight(t) < Weight(s) || (Weight(t) == Weight(s) && t.todo != [] && t.todo[0].EndCall?
                                       && (s.todo == [] || !s.todo[0].EndCall?))
    ensures Remaining(t) < Remaining(s)
  {
  }

  lemma OwnedFacts(s: State, b: nat)
    requires Inv(s) && b in OwnedBlocks(s.wrappers)
    ensures b in s.heap && b < s.next && b !in s.running
  {
  }

  lemma StoredGivenUp(n: nat, owned: set<nat>, heap: map<nat, Target>, running: map<nat, Target>, b: nat)
    requires b < n && b in owned && b in heap
    ensures StoredWeight(n, owned - {b}, heap, running) + TargetWeight(heap[b])
            == StoredWeight(n, owned, heap, running)
  {
    StoredChange(n, owned, heap, running, owned - {b}, heap, running, b);
  }

  lemma StoredMade(n: nat, owned: set<nat>, heap: map<nat, Target>, running: map<nat, Target>, t: Target)
    requires n !in owned && n !in running
    ensures StoredWeight(n + 1, owned + {n}, heap[n := t], running)
            == StoredWeight(n, owned, heap, running) + TargetWeight(t)
  {
    StoredChange(n, owned, heap, running, owned + {n}, heap[n := t], running, n);
  }

  lemma StoredInvoked(n: nat, owned: set<nat>, heap: map<nat, Target>, running: map<nat, Target>, b: nat)
    requires b < n && b in owned && b in heap && b !in running
    ensures StoredWeight(n, owned - {b}, heap - {b}, running[b := heap[b]]) + OpsWeight(heap[b].body) + 2
            == StoredWeight(n, owned, heap, running)
  {
    StoredChange(n, owned, heap, running, owned - {b}, heap - {b}, running[b := heap[b]], b);
  }

  lemma StoredReturned(n: nat, owned: set<nat>, heap: map<nat, Target>, running: map<nat, Target>, b: nat)
    requires b < n && b in running
    ensures StoredWeight(n, owned, heap, running - {b}) + OpsWeight(running[b].dtor)
            == StoredWeight(n, owned, heap, running)
  {
    StoredChange(n, owned, heap, running, owned, heap, running - {b}, b);
  }

  /** t is s after f was taken out of its wrappers. */
  lemma DropWeight(s: State, t: State, f: Fields)
    requires t == s.(wrappers := t.wrappers)
    requires OwnedBlocks(t.wrappers) == OwnedBlocks(s.wrappers) - Holding(f)
    requires f.impl.Some? ==>
               f.impl.value in s.heap && f.impl.value < s.next && f.impl.value in OwnedBlocks(s.wrappers)
    ensures Weight(Drop(t, f)) <= Weight(s)
  {
    if f.impl.Some? {
      var b := f.impl.value;
      PushedWeight(s.heap[b].dtor, Release(b), t.todo);
      StoredGivenUp(s.next, OwnedBlocks(s.wrappers), s.heap, s.running, b);
    } else {
      assert OwnedBlocks(t.wrappers) == OwnedBlocks(s.wrappers);
    }
  }

  lemma DroppedFacts(s: State, f: Fields)
    requires Inv(s) && Holding(f) <= OwnedBlocks(s.wrappers)
    ensures f.impl.Some? ==>
              f.impl.value in s.heap && f.impl.value < s.next && f.impl.value in OwnedBlocks(s.wrappers)
  {
    if f.impl.Some? {
      assert f.impl.value in Holding(f);
      OwnedFacts(s, f.impl.value);
    }
  }

  lemma AssignWeight(s: State, w: nat, from: nat)
    requires Inv(s) && w in s.wrappers && from in s.wrappers
    ensures Weight(Perform(s, MoveAssign(w, from))) <= Weight(s)
  {
    AssignOwned(s.wrappers, s.heap, w, from);
    var (ws, dropped) := AssignFields(s.wrappers, w, from);
    DroppedFacts(s, dropped);
    DropWeight(s, s.(wrappers := ws), dropped);
  }

  lemma AssignNullWeight(s: State, w: nat)
    requires Inv(s) && w in s.wrappers
    ensures Weight(Perform(s, AssignNull(w))) <= Weight(s)
  {
    EmptiedOwned(s.wrappers, s.heap, w, NULL_FIELDS);
    HoldingOwned(s.wrappers, w);
    DroppedFacts(s, s.wrappers[w]);
    DropWeight(s, s.(wrappers := s.wrappers[w := NULL_FIELDS]), s.wrappers[w]);
  }

  lemma DestroyWeight(s: State, w: nat)
    requires Inv(s) && w in s.wrappers
    ensures Weight(Perform(s, Destroy(w))) <= Weight(s)
  {
    RemovedOwned(s.wrappers, s.heap, w);
    HoldingOwned(s.wrappers, w);
    DroppedFacts(s, s.wrappers[w]);
    DropWeight(s, s.(wrappers := s.wrappers - {w}), s.wrappers[w]);
  }

  lemma MakeWeight(s: State, w: nat, target: Target)
    requires Inv(s) && w !in s.wrappers
    ensures Weight(Perform(s, Make(w, target))) == Weight(s) + TargetWeight(target)
  {
    NextFacts(s);
    MadeWeight(s, w, target);
  }

  lemma NextFacts(s: State)
    requires Inv(s)
    ensures NoDangling(s)
    ensures s.next !in OwnedBlocks(s.wrappers) && s.next !in s.heap && s.next !in s.running
  {
  }

  lemma MadeWeight(s: State, w: nat, target: Target)
    requires NoDangling(s) && w !in s.wrappers
    requires s.next !in OwnedBlocks(s.wrappers) && s.next !in s.running
    ensures Weight(Perform(s, Make(w, target))) == Weight(s) + TargetWeight(target)
  {
    MakeOwned(s.wrappers, w, target.kind, s.next);
    StoredMade(s.next, OwnedBlocks(s.wrappers), s.heap, s.running, target);
  }

  lemma CallWeight(s: State, w: nat)
    requires Inv(s) && w in s.wrappers && s.wrappers[w].impl.Some?
    ensures Weight(Perform(s, Call(w))) == Weight(s)
    ensures Perform(s, Call(w)).todo != []
  {
    var b := s.wrappers[w].impl.value;
    CallWrapped(s.wrappers, s.heap, w, b);
    OwnedFacts(s, b);
    InvokedWeight(s, w, b);
  }

  lemma InvokedWeight(s: State, w: nat, b: nat)
    requires NoDangling(s) && w in s.wrappers && s.wrappers[w].impl == Some(b)
    requires b < s.next && b in OwnedBlocks(s.wrappers) && b in s.heap && b !in s.running
    requires OwnedBlocks(s.wrappers[w := s.wrappers[w].(impl := None)]) == OwnedBlocks(s.wrappers) - {b}
    ensures Weight(Perform(s, Call(w))) == Weight(s)
    ensures Perform(s, Call(w)).todo != []
  {
    PushedWeight(s.heap[b].body, EndCall(b), s.todo);
    StoredInvoked(s.next, OwnedBlocks(s.wrappers), s.heap, s.running, b);
  }

  lemma EmptyCallWeight(s: State, w: nat)
    requires NoDangling(s) && w in s.wrappers && s.wrappers[w].impl.None?
    ensures var t := Perform(s, Call(w));
            || Weight(t) <= Weight(s)
            || (Weight(t) == Weight(s) + 1 && t.todo != [] && t.todo[0].EndCall?)
  {
    UnwoundWeight(s.todo);
  }

  lemma TryWeight(s: State, ops: seq<Op>)
    requires NoDangling(s)
    ensures Weight(Perform(s, Try(ops))) == Weight(s) + OpsWeight(ops) + 1
  {
    PushedWeight(ops, EndTry, s.todo);
  }

  lemma MoveWeight(s: State, op: Op)
    requires NoDangling(s) && Legal(s.wrappers, op)
    requires op.MakeEmpty? || op.MoveMake? || op.Swap?
    ensures Weight(Perform(s, op)) == Weight(s)
  {
    match op
    case MakeEmpty(w) => MakeEmptyOwned(s.wrappers, w);
    case MoveMake(w, from) => MoveMakeOwned(s.wrappers, w, from);
    case Swap(w, from) => SwapOwned(s.wrappers, w, from);
  }

  /** s is the state with the operation taken off the stack. */
  lemma PerformWeight(s: State, op: Op)
    requires Inv(s) && Legal(s.wrappers, op)
    ensures var t := Perform(s, op);
            || Weight(t) < Weight(s) + OpWeight(op)
            || (Weight(t) == Weight(s) + OpWeight(op) && t.todo != [] && t.todo[0].EndCall?)
  {
    match op
    case Make(w, t) => MakeWeight(s, w, t);
    case MoveAssign(w, from) => AssignWeight(s, w, from);
    case AssignNull(w) => AssignNullWeight(s, w);
    case Destroy(w) => DestroyWeight(s, w);
    case Call(w) => if s.wrappers[w].impl.Some? { CallWeight(s, w); } else { EmptyCallWeight(s, w); }
    case Try(ops) => TryWeight(s, ops);
    case _ => MoveWeight(s, op);
  }

  lemma ReleaseWeight(s: State)
    requires Inv(s) && CanStep(s) && s.todo[0].Release?
    ensures Weight(Step(s)) < Weight(s)
  {
    var b := s.todo[0].b;
    ReleaseBooks(s.todo, s.log, s.next, s.heap.Keys, s.running.Keys, OwnedBlocks(s.wrappers));
    StoredChange(s.next, OwnedBlocks(s.wrappers), s.heap, s.running,
                 OwnedBlocks(s.wrappers), s.heap - {b}, s.running, b);
  }

  lemma EndCallFacts(s: State)
    requires Inv(s) && s.todo != [] && s.todo[0].EndCall?
    ensures s.todo[0].b in s.running && s.todo[0].b < s.next
  {
    HeadCounts(s.todo);
    assert multiset(s.todo)[s.todo[0]] > 0;
  }

  lemma EndCallWeight(s: State)
    requires NoDangling(s) && CanStep(s) && s.todo[0].EndCall?
    requires s.todo[0].b in s.running && s.todo[0].b < s.next
    ensures Weight(Step(s)) < Weight(s)
  {
    var b := s.todo[0].b;
    PushedWeight(s.running[b].dtor, EndDtor, s.todo[1..]);
    StoredReturned(s.next, OwnedBlocks(s.wrappers), s.heap, s.running, b);
  }

  lemma StepWeight(s: State)
    requires Inv(s) && CanStep(s)
    ensures Remaining(Step(s)) < Remaining(s)
  {
    match s.todo[0] {
      case Do(op) =>
        PopKeeps(s);
        PerformWeight(s.(todo := s.todo[1..]), op);
      case Release(_) => ReleaseWeight(s);
      case EndCall(_) =>
        EndCallFacts(s);
        EndCallWeight(s);
      case Rethrow => UnwoundWeight(s.todo[1..]);
      case _ =>
    }
    Lighter(s, Step(s));
  }

  // ----- Runs end -----

  lemma AfterStep(s: State, n: nat) returns (t: State)
    requires Inv(s) && CanStep(s) && Remaining(s) <= n
    ensures n > 0 && Inv(t) && Remaining(t) <= n - 1
    ensures After(s, n) == After(t, n - 1)
  {
    t := Step(s);
    StepKeeps(s);
    StepWeight(s);
  }

  /** A run is over after as many steps as there is weight. */
  lemma {:induction false} StopsWithin(s: State, n: nat)
    requires Inv(s) && Remaining(s) <= n
    ensures !CanStep(After(s, n))
    decreases n
  {
    if CanStep(s) {
      var t := AfterStep(s, n);
      StopsWithin(t, n - 1);
    }
  }

  /** The number of steps within which every run of a program is over. */
  function Bound(ops: seq<Op>): nat { 2 * OpsWeight(ops) + 1 }

  lemma RunsEnd(ops: seq<Op>, n: nat)
    requires n >= Bound(ops)
    ensures Inv(Start(ops))
    ensures !CanStep(After(Start(ops), n))
  {
    StartHolds(ops);
    ProgramWeight(ops);
    StopsWithin(Start(ops), n);
  }

  /** Every program, however its handlers re-enter the wrappers, comes to its end, or throws
      out of it, or is about to use a wrapper outside its lifetime. At its end the allocated
      blocks are exactly those that wrappers hold, and every other block that was ever
      allocated has been freed exactly once and its handler destroyed exactly once. */
  lemma EveryRunAccounts(ops: seq<Op>)
    ensures Inv(Start(ops))
    ensures var s := After(Start(ops), Bound(ops));
            || (&& s.todo == []
                && s.heap.Keys == OwnedBlocks(s.wrappers)
                && forall b: nat :: b < s.next && b !in OwnedBlocks(s.wrappers) ==>
                     multiset(s.log)[Freed(b)] == 1 && multiset(s.log)[Died(b)] == 1)
            || (s.todo != [] && s.todo[0].Terminate?)
            || (s.todo != [] && s.todo[0].Do? && !Legal(s.wrappers, s.todo[0].op))
  {
    RunsEnd(ops, Bound(ops));
    if After(Start(ops), Bound(ops)).todo == [] {
      Quiescent(ops, Bound(ops));
    }
  }
}
