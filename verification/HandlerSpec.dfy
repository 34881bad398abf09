/**
 The ownership protocol of asio/any_completion_handler.hpp as a state machine.

 Wrappers hold a function table and an implementation block. Targets are programs: what
 a target does when it is called, and what its destructor does, are themselves lists of
 operations on wrappers, so a running handler may re-enter any wrapper, the one it was
 called through included. `todo` is the call stack, flattened.

 Calling an empty wrapper throws. The exception leaves the running handlers one by one,
 destroying each, up to the nearest try block; it terminates the program if there is none,
 or if it would leave a destructor.

 Using a wrapper outside its lifetime is undefined in C++; such an operation is not
 `Legal` and the machine stops before it.
 */
module HandlerSpec {
  import opened Common

  /** fn_table_, naming the handler type it was built for, and impl_. */
  datatype Fields = Fields(table: Option<nat>, impl: Option<nat>)

  const NULL_FIELDS := Fields(None, None)

  predicate Spent(f: Fields) { f.table.Some? && f.impl.None? }

  /** A handler object: its type, its own executor, the operations it performs when
      called, and those its destructor performs. */
  datatype Target = Target(kind: nat, executor: Option<nat>, body: seq<Op>, dtor: seq<Op>)

  datatype Op =
    | MakeEmpty(w: nat)
    | Make(w: nat, target: Target)
    | MoveMake(w: nat, from: nat)
    | MoveAssign(w: nat, from: nat)
    | AssignNull(w: nat)
    | Swap(w: nat, from: nat)
    | Destroy(w: nat)
    | Call(w: nat)
    | Try(ops: seq<Op>)

  /** An operation; the deallocation that ends `destroy`; the return from a handler; the ends
      of a try block that swallows its exception and of a handler's destructor; an exception
      on its way out of a handler; and the end of the program by an exception. */
  datatype Instr =
    | Do(op: Op) | Release(b: nat) | EndCall(b: nat)
    | EndTry | EndDtor | Rethrow | Terminate

  datatype Event =
    | Created(b: nat) | Invoked(b: nat) | Freed(b: nat) | Died(b: nat) | BadCall(w: nat)

  /** `heap` holds the allocated blocks, `running` the handlers moved out of their block to
      be called, by the block they came from. Block `b` is the b-th ever allocated. */
  datatype State = State(
    todo: seq<Instr>, wrappers: map<nat, Fields>, heap: map<nat, Target>,
    running: map<nat, Target>, next: nat, log: seq<Event>)

  function Program(ops: seq<Op>): (p: seq<Instr>)
    ensures |p| == |ops| && forall i :: 0 <= i < |p| ==> p[i] == Do(ops[i])
  {
    seq(|ops|, i requires 0 <= i < |ops| => Do(ops[i]))
  }

  function Start(ops: seq<Op>): State {
    State(Program(ops), map[], map[], map[], 0, [])
  }

  predicate Legal(ws: map<nat, Fields>, op: Op) {
    match op
    case MakeEmpty(w) => w !in ws
    case Make(w, _) => w !in ws
    case MoveMake(w, from) => w !in ws && from in ws
    case MoveAssign(w, from) => w in ws && from in ws
    case Swap(w, from) => w in ws && from in ws
    case AssignNull(w) => w in ws
    case Destroy(w) => w in ws
    case Call(w) => w in ws
    case Try(_) => true
  }

  predicate CanStep(s: State) {
    s.todo != [] && !s.todo[0].Terminate? && (s.todo[0].Do? ==> Legal(s.wrappers, s.todo[0].op))
  }

  /** The call stack after a throw. */
  function Unwound(todo: seq<Instr>): seq<Instr> {
    if todo == [] then [Terminate]
    else match todo[0]
      case Do(_) => Unwound(todo[1..])
      case EndTry => todo[1..]
      case EndCall(_) => [todo[0], Rethrow] + todo[1..]
      case _ => [Terminate] + todo
  }

  /** The destructor of a wrapper holding f: the target is destroyed, then its block freed. */
  function Drop(s: State, f: Fields): State
    requires f.impl.Some? ==> f.impl.value in s.heap
  {
    if f.impl.None? then s else
    var b := f.impl.value;
    s.(todo := Program(s.heap[b].dtor) + [Release(b)] + s.todo, log := s.log + [Died(b)])
  }

  /** The wrappers after a move assignment, and what the temporary is left holding. */
  function AssignFields(ws: map<nat, Fields>, w: nat, from: nat): (map<nat, Fields>, Fields)
    requires w in ws && from in ws
  {
    var moved := ws[from := NULL_FIELDS];
    (moved[w := ws[from]], moved[w])
  }

  /** `impl` frees the block before the handler runs. */
  function Invoke(s: State, w: nat): State
    requires w in s.wrappers && (s.wrappers[w].impl.Some? ==> s.wrappers[w].impl.value in s.heap)
  {
    var f := s.wrappers[w];
    if f.impl.None? then s.(log := s.log + [BadCall(w)], todo := Unwound(s.todo)) else
    var b := f.impl.value;
    var t := s.heap[b];
    s.(wrappers := s.wrappers[w := f.(impl := None)],
       heap := s.heap - {b}, running := s.running[b := t],
       log := s.log + [Freed(b), Invoked(b)],
       todo := Program(t.body) + [EndCall(b)] + s.todo)
  }

  /** Every block a wrapper refers to is allocated. */
  predicate NoDangling(s: State) {
    forall w :: w in s.wrappers && s.wrappers[w].impl.Some? ==> s.wrappers[w].impl.value in s.heap
  }

  function Perform(s: State, op: Op): State
    requires Legal(s.wrappers, op) && NoDangling(s)
  {
    match op
    case MakeEmpty(w) => s.(wrappers := s.wrappers[w := NULL_FIELDS])
    case Make(w, t) =>
      s.(wrappers := s.wrappers[w := Fields(Some(t.kind), Some(s.next))],
         heap := s.heap[s.next := t], next := s.next + 1, log := s.log + [Created(s.next)])
    case MoveMake(w, from) =>
      s.(wrappers := s.wrappers[w := s.wrappers[from]][from := NULL_FIELDS])
    case MoveAssign(w, from) =>
      var (ws, dropped) := AssignFields(s.wrappers, w, from);
      Drop(s.(wrappers := ws), dropped)
    case AssignNull(w) => Drop(s.(wrappers := s.wrappers[w := NULL_FIELDS]), s.wrappers[w])
    case Swap(w, from) =>
      s.(wrappers := s.wrappers[w := s.wrappers[from]][from := s.wrappers[w]])
    case Destroy(w) => Drop(s.(wrappers := s.wrappers - {w}), s.wrappers[w])
    case Call(w) => Invoke(s, w)
    case Try(ops) => s.(todo := Program(ops) + [EndTry] + s.todo)
  }

  function Step(s: State): State
    requires CanStep(s) && NoDangling(s)
  {
    var rest := s.(todo := s.todo[1..]);
    match s.todo[0]
    case Do(op) => Perform(rest, op)
    case Release(b) => rest.(heap := s.heap - {b}, log := s.log + [Freed(b)])
    case EndCall(b) =>
      if b !in s.running then rest else
      rest.(running := s.running - {b}, log := s.log + [Died(b)],
            todo := Program(s.running[b].dtor) + [EndDtor] + s.todo[1..])
    case Rethrow => rest.(todo := Unwound(s.todo[1..]))
    case _ => rest
  }

  // ----- The invariant -----

  function OwnedBlocks(ws: map<nat, Fields>): set<nat> {
    set w | w in ws && ws[w].impl.Some? :: ws[w].impl.value
  }

  /** Wrappers share no block, and the table of a wrapper with a block was built for the
      type of the handler in it. */
  ghost predicate Wrapped(ws: map<nat, Fields>, heap: map<nat, Target>) {
    && (forall w :: w in ws && ws[w].impl.Some? ==>
          ws[w].impl.value in heap && ws[w].table == Some(heap[ws[w].impl.value].kind))
    && (forall v, w :: v in ws && w in ws && v != w && ws[v].impl.Some? ==> ws[v].impl != ws[w].impl)
  }

  /** Blocks that are allocated but not owned are exactly those whose release is due, once,
      and the handlers that run are exactly those whose return is due, once. */
  ghost predicate Accounted(todo: seq<Instr>, next: nat, live: set<nat>, running: set<nat>, owned: set<nat>) {
    && owned <= live
    && (forall b :: b in live ==> b < next)
    && (forall b :: b in running ==> b < next && b !in live)
    && (forall b: nat :: multiset(todo)[Release(b)] == if b in live - owned then 1 else 0)
    && (forall b: nat :: multiset(todo)[EndCall(b)] == if b in running then 1 else 0)
  }

  /** How often each event has happened to each block so far. */
  ghost predicate Logged(log: seq<Event>, next: nat, live: set<nat>, running: set<nat>, owned: set<nat>) {
    && (forall b: nat :: multiset(log)[Created(b)] == if b < next then 1 else 0)
    && (forall b: nat :: multiset(log)[Freed(b)] == if b < next && b !in live then 1 else 0)
    && (forall b: nat :: multiset(log)[Died(b)] == if b < next && b !in owned + running then 1 else 0)
    && (forall b: nat :: multiset(log)[Invoked(b)] <= if b < next && b !in live then 1 else 0)
  }

  /** A handler is invoked right after its block was freed. */
  ghost predicate FreedFirst(log: seq<Event>) {
    forall i :: 0 <= i < |log| && log[i].Invoked? ==> i > 0 && log[i - 1] == Freed(log[i].b)
  }

  /** The part of the invariant that only needs to know which blocks are allocated, running
      and owned. */
  ghost predicate Books(todo: seq<Instr>, log: seq<Event>, next: nat,
                        live: set<nat>, running: set<nat>, owned: set<nat>) {
    && Accounted(todo, next, live, running, owned)
    && Logged(log, next, live, running, owned)
    && FreedFirst(log)
  }

  ghost predicate Inv(s: State) {
    && Wrapped(s.wrappers, s.heap)
    && Books(s.todo, s.log, s.next, s.heap.Keys, s.running.Keys, OwnedBlocks(s.wrappers))
  }
}
