/**
 Ownership of handler blocks over whole runs: the invariant of HandlerSpec is kept by every
 step, and what follows from it.
 */
module HandlerProof {
  import opened Common
  import opened HandlerSpec

  // ----- Counting in the call stack and the log -----

  lemma HeadCounts(todo: seq<Instr>)
    requires todo != []
    ensures multiset(todo) == multiset{todo[0]} + multiset(todo[1..])
  {
    assert todo == [todo[0]] + todo[1..];
  }

  lemma ProgramCounts(ops: seq<Op>, i: Instr)
    requires !i.Do?
    ensures multiset(Program(ops))[i] == 0
  {
    assert i !in Program(ops);
  }

  /** A program pushed on the stack adds no release and no return. */
  lemma PushedCounts(ops: seq<Op>, mid: seq<Instr>, todo: seq<Instr>)
    ensures forall i: Instr :: !i.Do? ==>
              multiset(Program(ops) + mid + todo)[i] == multiset(mid)[i] + multiset(todo)[i]
  {
    forall i: Instr | !i.Do?
      ensures multiset(Program(ops) + mid + todo)[i] == multiset(mid)[i] + multiset(todo)[i]
    {
      ProgramCounts(ops, i);
      assert multiset(Program(ops) + mid + todo) == multiset(Program(ops)) + multiset(mid) + multiset(todo);
    }
  }

  /** Unwinding drops no release and no return. */
  lemma {:induction false} UnwoundCounts(todo: seq<Instr>)
    ensures forall i: Instr :: (i.Release? || i.EndCall?) ==> multiset(Unwound(todo))[i] == multiset(todo)[i]
    decreases |todo|
  {
    if todo != [] {
      HeadCounts(todo);
      if todo[0].Do? {
        UnwoundCounts(todo[1..]);
      } else if todo[0].EndCall? {
        assert multiset([todo[0], Rethrow] + todo[1..]) == multiset{todo[0], Rethrow} + multiset(todo[1..]);
      } else if !todo[0].EndTry? {
        assert multiset([Terminate] + todo) == multiset{Terminate} + multiset(todo);
      }
    }
  }

  lemma {:induction false} UnwoundPast(ops: seq<Op>, rest: seq<Instr>)
    ensures Unwound(Program(ops) + rest) == Unwound(rest)
  {
    if ops == [] {
      assert Program(ops) + rest == rest;
    } else {
      assert (Program(ops) + rest)[1..] == Program(ops[1..]) + rest;
      UnwoundPast(ops[1..], rest);
    }
  }

  /** Where an exception is once it has left the operations before `rest`: out of the program,
      caught by a try block, about to destroy the handler it leaves and go on, or ending the
      program because it would leave a destructor. */
  predicate Landed(rest: seq<Instr>, todo: seq<Instr>) {
    && (rest == [] ==> todo == [Terminate])
    && (rest != [] && rest[0].EndTry? ==> todo == rest[1..])
    && (rest != [] && rest[0].EndCall? ==> todo == [rest[0], Rethrow] + rest[1..])
    && (rest != [] && (rest[0].Release? || rest[0].EndDtor?) ==> todo == [Terminate] + rest)
  }

  lemma UnwoundLands(ops: seq<Op>, rest: seq<Instr>)
    ensures Landed(rest, Unwound(Program(ops) + rest))
  {
    UnwoundPast(ops, rest);
  }

  /** Calling an empty wrapper throws: the operations that were to follow are skipped, and
      nothing but the call stack and the log changes. */
  lemma EmptyCallThrows(s: State, w: nat, skipped: seq<Op>, rest: seq<Instr>)
    requires NoDangling(s) && s.todo == [Do(Call(w))] + (Program(skipped) + rest)
    requires w in s.wrappers && s.wrappers[w].impl.None?
    ensures CanStep(s)
    ensures var t := Step(s);
            t == s.(todo := t.todo, log := s.log + [BadCall(w)]) && Landed(rest, t.todo)
  {
    assert s.todo[1..] == Program(skipped) + rest;
    UnwoundLands(skipped, rest);
  }

  /** So does the exception that has left a handler, once the handler is destroyed. */
  lemma ExceptionGoesOn(s: State, skipped: seq<Op>, rest: seq<Instr>)
    requires NoDangling(s) && s.todo == [Rethrow] + (Program(skipped) + rest)
    ensures CanStep(s)
    ensures var t := Step(s);
            t == s.(todo := t.todo) && Landed(rest, t.todo)
  {
    assert s.todo[1..] == Program(skipped) + rest;
    UnwoundLands(skipped, rest);
  }

  lemma LogCounts(log: seq<Event>, more: seq<Event>)
    ensures multiset(log + more) == multiset(log) + multiset(more)
  {
  }

  lemma QuietFreedFirst(log: seq<Event>, e: Event)
    requires FreedFirst(log) && !e.Invoked?
    ensures FreedFirst(log + [e])
  {
  }

  // ----- What each kind of step does to the books -----

  lemma PopBooks(todo: seq<Instr>, log: seq<Event>, next: nat, live: set<nat>, running: set<nat>, owned: set<nat>)
    requires todo != [] && !todo[0].Release? && !todo[0].EndCall? && Books(todo, log, next, live, running, owned)
    ensures Books(todo[1..], log, next, live, running, owned)
  {
    HeadCounts(todo);
  }

  /** A block leaves the wrappers for good: its destructor and then its release are due. */
  lemma DropBooks(todo: seq<Instr>, dtor: seq<Op>, log: seq<Event>, next: nat, live: set<nat>,
                  running: set<nat>, owned: set<nat>, b: nat)
    requires Books(todo, log, next, live, running, owned) && b in owned
    ensures Books(Program(dtor) + [Release(b)] + todo, log + [Died(b)], next, live, running, owned - {b})
  {
    PushedCounts(dtor, [Release(b)], todo);
    LogCounts(log, [Died(b)]);
    QuietFreedFirst(log, Died(b));
  }

  lemma MakeBooks(todo: seq<Instr>, log: seq<Event>, next: nat, live: set<nat>, running: set<nat>, owned: set<nat>)
    requires Books(todo, log, next, live, running, owned)
    ensures Books(todo, log + [Created(next)], next + 1, live + {next}, running, owned + {next})
  {
    LogCounts(log, [Created(next)]);
    QuietFreedFirst(log, Created(next));
  }

  lemma EmptyCallBooks(todo: seq<Instr>, log: seq<Event>, next: nat, live: set<nat>, running: set<nat>,
                       owned: set<nat>, w: nat)
    requires Books(todo, log, next, live, running, owned)
    ensures Books(Unwound(todo), log + [BadCall(w)], next, live, running, owned)
  {
    UnwindBooks(todo, log, next, live, running, owned);
    LogCounts(log, [BadCall(w)]);
    QuietFreedFirst(log, BadCall(w));
  }

  lemma UnwindBooks(todo: seq<Instr>, log: seq<Event>, next: nat, live: set<nat>, running: set<nat>, owned: set<nat>)
    requires Books(todo, log, next, live, running, owned)
    ensures Books(Unwound(todo), log, next, live, running, owned)
  {
    UnwoundCounts(todo);
  }

  lemma TryBooks(todo: seq<Instr>, ops: seq<Op>, log: seq<Event>, next: nat, live: set<nat>, running: set<nat>,
                 owned: set<nat>)
    requires Books(todo, log, next, live, running, owned)
    ensures Books(Program(ops) + [EndTry] + todo, log, next, live, running, owned)
  {
    PushedCounts(ops, [EndTry], todo);
  }

  /** A block is freed and its handler starts to run. */
  lemma InvokeBooks(todo: seq<Instr>, body: seq<Op>, log: seq<Event>, next: nat, live: set<nat>,
                    running: set<nat>, owned: set<nat>, b: nat)
    requires Books(todo, log, next, live, running, owned) && b in owned
    ensures Books(Program(body) + [EndCall(b)] + todo, log + [Freed(b), Invoked(b)], next,
                  live - {b}, running + {b}, owned - {b})
  {
    InvokeAccounted(todo, body, next, live, running, owned, b);
    InvokeLogged(log, next, live, running, owned, b);
    InvokeFreedFirst(log, b);
  }

  lemma InvokeAccounted(todo: seq<Instr>, body: seq<Op>, next: nat, live: set<nat>, running: set<nat>,
                        owned: set<nat>, b: nat)
    requires Accounted(todo, next, live, running, owned) && b in owned
    ensures b < next && b in live
    ensures Accounted(Program(body) + [EndCall(b)] + todo, next, live - {b}, running + {b}, owned - {b})
  {
    PushedCounts(body, [EndCall(b)], todo);
  }

  lemma InvokeLogged(log: seq<Event>, next: nat, live: set<nat>, running: set<nat>, owned: set<nat>, b: nat)
    requires Logged(log, next, live, running, owned) && b in owned && b in live && b < next
    ensures Logged(log + [Freed(b), Invoked(b)], next, live - {b}, running + {b}, owned - {b})
  {
    LogCounts(log, [Freed(b), Invoked(b)]);
  }

  lemma InvokeFreedFirst(log: seq<Event>, b: nat)
    requires FreedFirst(log)
    ensures FreedFirst(log + [Freed(b), Invoked(b)])
  {
  }

  lemma ReleaseBooks(todo: seq<Instr>, log: seq<Event>, next: nat, live: set<nat>, running: set<nat>, owned: set<nat>)
    requires Books(todo, log, next, live, running, owned) && todo != [] && todo[0].Release?
    ensures todo[0].b in live - owned
    ensures Books(todo[1..], log + [Freed(todo[0].b)], next, live - {todo[0].b}, running, owned)
  {
    HeadCounts(todo);
    assert multiset(todo)[todo[0]] > 0;
    LogCounts(log, [Freed(todo[0].b)]);
    QuietFreedFirst(log, Freed(todo[0].b));
  }

  lemma EndCallBooks(todo: seq<Instr>, dtor: seq<Op>, log: seq<Event>, next: nat, live: set<nat>,
                     running: set<nat>, owned: set<nat>)
    requires Books(todo, log, next, live, running, owned) && todo != [] && todo[0].EndCall?
    ensures todo[0].b in running
    ensures Books(Program(dtor) + [EndDtor] + todo[1..], log + [Died(todo[0].b)],
                  next, live, running - {todo[0].b}, owned)
  {
    HeadCounts(todo);
    assert multiset(todo)[todo[0]] > 0;
    PushedCounts(dtor, [EndDtor], todo[1..]);
    LogCounts(log, [Died(todo[0].b)]);
    QuietFreedFirst(log, Died(todo[0].b));
  }

  // ----- Who owns what after an operation -----

  lemma MakeEmptyOwned(ws: map<nat, Fields>, w: nat)
    requires w !in ws
    ensures OwnedBlocks(ws[w := NULL_FIELDS]) == OwnedBlocks(ws)
  {
    var us: map<nat, Fields> := ws[w := NULL_FIELDS];
    forall b | b in OwnedBlocks(ws)
      ensures b in OwnedBlocks(us)
    {
      var v :| v in ws && ws[v].impl == Some(b);
      assert v in us && us[v].impl == Some(b);
    }
  }

  lemma MakeOwned(ws: map<nat, Fields>, w: nat, kind: nat, b: nat)
    requires w !in ws
    ensures OwnedBlocks(ws[w := Fields(Some(kind), Some(b))]) == OwnedBlocks(ws) + {b}
  {
    var us: map<nat, Fields> := ws[w := Fields(Some(kind), Some(b))];
    assert w in us && us[w].impl == Some(b);
    forall c | c in OwnedBlocks(ws)
      ensures c in OwnedBlocks(us)
    {
      var v :| v in ws && ws[v].impl == Some(c);
      assert v in us && us[v].impl == Some(c);
    }
  }

  lemma SwapOwned(ws: map<nat, Fields>, w: nat, from: nat)
    requires w in ws && from in ws
    ensures OwnedBlocks(ws[w := ws[from]][from := ws[w]]) == OwnedBlocks(ws)
  {
    var us: map<nat, Fields> := ws[w := ws[from]][from := ws[w]];
    forall b | b in OwnedBlocks(ws)
      ensures b in OwnedBlocks(us)
    {
      var v :| v in ws && ws[v].impl == Some(b);
      var u := if v == from then w else if v == w then from else v;
      assert u in us && us[u].impl == Some(b);
    }
  }

  lemma MoveMakeOwned(ws: map<nat, Fields>, w: nat, from: nat)
    requires w !in ws && from in ws
    ensures OwnedBlocks(ws[w := ws[from]][from := NULL_FIELDS]) == OwnedBlocks(ws)
  {
    var us: map<nat, Fields> := ws[w := ws[from]][from := NULL_FIELDS];
    forall b | b in OwnedBlocks(ws)
      ensures b in OwnedBlocks(us)
    {
      var v :| v in ws && ws[v].impl == Some(b);
      var u := if v == from then w else v;
      assert u in us && us[u].impl == Some(b);
    }
  }

  function Holding(f: Fields): set<nat> { if f.impl.Some? then {f.impl.value} else {} }

  /** Emptying a wrapper takes exactly its own block out. */
  lemma EmptiedOwned(ws: map<nat, Fields>, heap: map<nat, Target>, w: nat, f: Fields)
    requires Wrapped(ws, heap) && w in ws && f.impl.None?
    ensures OwnedBlocks(ws[w := f]) == OwnedBlocks(ws) - Holding(ws[w])
  {
    var us: map<nat, Fields> := ws[w := f];
    forall b | b in OwnedBlocks(ws) - Holding(ws[w])
      ensures b in OwnedBlocks(us)
    {
      var v :| v in ws && ws[v].impl == Some(b);
      assert v in us && us[v].impl == Some(b);
    }
  }

  /** So does giving it up. */
  lemma RemovedOwned(ws: map<nat, Fields>, heap: map<nat, Target>, w: nat)
    requires Wrapped(ws, heap) && w in ws
    ensures OwnedBlocks(ws - {w}) == OwnedBlocks(ws) - Holding(ws[w])
  {
    var us: map<nat, Fields> := ws - {w};
    forall b | b in OwnedBlocks(ws) - Holding(ws[w])
      ensures b in OwnedBlocks(us)
    {
      var v :| v in ws && ws[v].impl == Some(b);
      assert v in us && us[v].impl == Some(b);
    }
  }

  /** Move assignment is a swap and an emptying, except onto itself, where it changes nothing. */
  lemma AssignOwned(ws: map<nat, Fields>, heap: map<nat, Target>, w: nat, from: nat)
    requires Wrapped(ws, heap) && w in ws && from in ws
    ensures var (us, dropped) := AssignFields(ws, w, from);
            && OwnedBlocks(us) == OwnedBlocks(ws) - Holding(dropped)
            && Wrapped(us, heap)
            && Holding(dropped) <= OwnedBlocks(ws)
  {
    var (us, dropped) := AssignFields(ws, w, from);
    if w == from {
      assert us == ws;
    } else {
      EmptiedOwned(ws, heap, w, NULL_FIELDS);
      var cleared: map<nat, Fields> := ws[w := NULL_FIELDS];
      SwapOwned(cleared, w, from);
      assert us == cleared[w := cleared[from]][from := cleared[w]];
      assert dropped == ws[w];
    }
  }

  // ----- The wrappers stay well formed -----

  lemma MakeWrapped(ws: map<nat, Fields>, heap: map<nat, Target>, w: nat, t: Target, b: nat)
    requires Wrapped(ws, heap) && w !in ws && b !in heap
    ensures Wrapped(ws[w := Fields(Some(t.kind), Some(b))], heap[b := t])
  {
  }

  lemma MoveMakeWrapped(ws: map<nat, Fields>, heap: map<nat, Target>, w: nat, from: nat)
    requires Wrapped(ws, heap) && w !in ws && from in ws
    ensures Wrapped(ws[w := ws[from]][from := NULL_FIELDS], heap)
  {
  }

  lemma SwapWrapped(ws: map<nat, Fields>, heap: map<nat, Target>, w: nat, from: nat)
    requires Wrapped(ws, heap) && w in ws && from in ws
    ensures Wrapped(ws[w := ws[from]][from := ws[w]], heap)
  {
  }

  lemma EmptiedWrapped(ws: map<nat, Fields>, heap: map<nat, Target>, w: nat, f: Fields)
    requires Wrapped(ws, heap) && f.impl.None?
    ensures Wrapped(ws[w := f], heap)
  {
  }

  lemma RemovedWrapped(ws: map<nat, Fields>, heap: map<nat, Target>, w: nat)
    requires Wrapped(ws, heap)
    ensures Wrapped(ws - {w}, heap)
  {
  }

  /** Blocks that no wrapper owns may go. */
  lemma FreedWrapped(ws: map<nat, Fields>, heap: map<nat, Target>, b: nat)
    requires Wrapped(ws, heap) && b !in OwnedBlocks(ws)
    ensures Wrapped(ws, heap - {b})
  {
  }

  // ----- Each step keeps the invariant -----

  /** An operation that rearranges the wrappers without changing what they own altogether. */
  lemma Rearranged(s: State, t: State)
    requires Inv(s) && t == s.(wrappers := t.wrappers)
    requires Wrapped(t.wrappers, t.heap) && OwnedBlocks(t.wrappers) == OwnedBlocks(s.wrappers)
    ensures Inv(t)
  {
  }

  /** t is s after f was taken out of its wrappers. */
  lemma DropKeeps(s: State, t: State, f: Fields)
    requires Inv(s) && t == s.(wrappers := t.wrappers) && Wrapped(t.wrappers, t.heap)
    requires OwnedBlocks(t.wrappers) == OwnedBlocks(s.wrappers) - Holding(f)
    requires Holding(f) <= OwnedBlocks(s.wrappers)
    ensures Inv(Drop(t, f))
  {
    if f.impl.Some? {
      var b := f.impl.value;
      assert b in OwnedBlocks(s.wrappers);
      DropBooks(s.todo, s.heap[b].dtor, s.log, s.next, s.heap.Keys, s.running.Keys, OwnedBlocks(s.wrappers), b);
    } else {
      assert OwnedBlocks(t.wrappers) == OwnedBlocks(s.wrappers);
    }
  }

  lemma AddedKey(heap: map<nat, Target>, b: nat, t: Target)
    ensures heap[b := t].Keys == heap.Keys + {b} && (heap - {b}).Keys == heap.Keys - {b}
  {
  }

  lemma NextUnused(s: State)
    requires Inv(s)
    ensures s.next !in s.heap
  {
  }

  lemma MakeKeeps(s: State, w: nat, target: Target)
    requires Inv(s) && w !in s.wrappers
    ensures Inv(Perform(s, Make(w, target)))
  {
    NextUnused(s);
    MakeOwned(s.wrappers, w, target.kind, s.next);
    MakeWrapped(s.wrappers, s.heap, w, target, s.next);
    MakeBooks(s.todo, s.log, s.next, s.heap.Keys, s.running.Keys, OwnedBlocks(s.wrappers));
    AddedKey(s.heap, s.next, target);
  }

  lemma EmptyCallKeeps(s: State, w: nat)
    requires Inv(s) && w in s.wrappers && s.wrappers[w].impl.None?
    ensures Inv(Perform(s, Call(w)))
  {
    EmptyCallBooks(s.todo, s.log, s.next, s.heap.Keys, s.running.Keys, OwnedBlocks(s.wrappers), w);
    Restacked(s, Perform(s, Call(w)));
  }

  /** A step that changes only the call stack and the log. */
  lemma Restacked(s: State, t: State)
    requires Wrapped(s.wrappers, s.heap) && t == s.(todo := t.todo, log := t.log)
    requires Books(t.todo, t.log, t.next, t.heap.Keys, t.running.Keys, OwnedBlocks(t.wrappers))
    ensures Inv(t)
  {
  }

  /** What a call does to the wrappers and the heap. */
  lemma CallWrapped(ws: map<nat, Fields>, heap: map<nat, Target>, w: nat, b: nat)
    requires Wrapped(ws, heap) && w in ws && ws[w].impl == Some(b)
    ensures b in OwnedBlocks(ws)
    ensures var us := ws[w := ws[w].(impl := None)];
            OwnedBlocks(us) == OwnedBlocks(ws) - {b} && Wrapped(us, heap - {b})
  {
    EmptiedOwned(ws, heap, w, ws[w].(impl := None));
    EmptiedWrapped(ws, heap, w, ws[w].(impl := None));
    FreedWrapped(ws[w := ws[w].(impl := None)], heap, b);
  }

  lemma CallKeeps(s: State, w: nat)
    requires Inv(s) && w in s.wrappers && s.wrappers[w].impl.Some?
    ensures Inv(Perform(s, Call(w)))
  {
    var b := s.wrappers[w].impl.value;
    var t := Perform(s, Call(w));
    CallWrapped(s.wrappers, s.heap, w, b);
    AddedKey(s.heap, b, s.heap[b]);
    AddedKey(s.running, b, s.heap[b]);
    InvokedBooks(s, t, b);
  }

  /** The books after a call, told by what it changed. */
  lemma InvokedBooks(s: State, t: State, b: nat)
    requires Books(s.todo, s.log, s.next, s.heap.Keys, s.running.Keys, OwnedBlocks(s.wrappers))
    requires b in s.heap && b in OwnedBlocks(s.wrappers)
    requires t.todo == Program(s.heap[b].body) + [EndCall(b)] + s.todo
    requires t.log == s.log + [Freed(b), Invoked(b)] && t.next == s.next
    requires t.heap.Keys == s.heap.Keys - {b} && t.running.Keys == s.running.Keys + {b}
    requires OwnedBlocks(t.wrappers) == OwnedBlocks(s.wrappers) - {b}
    ensures Books(t.todo, t.log, t.next, t.heap.Keys, t.running.Keys, OwnedBlocks(t.wrappers))
  {
    InvokeBooks(s.todo, s.heap[b].body, s.log, s.next, s.heap.Keys, s.running.Keys, OwnedBlocks(s.wrappers), b);
  }

  lemma MoveKeeps(s: State, op: Op)
    requires Inv(s) && Legal(s.wrappers, op)
    requires op.MakeEmpty? || op.MoveMake? || op.Swap?
    ensures Inv(Perform(s, op))
  {
    match op {
      case MakeEmpty(w) =>
        MakeEmptyOwned(s.wrappers, w);
        EmptiedWrapped(s.wrappers, s.heap, w, NULL_FIELDS);
      case MoveMake(w, from) =>
        MoveMakeOwned(s.wrappers, w, from);
        MoveMakeWrapped(s.wrappers, s.heap, w, from);
      case Swap(w, from) =>
        SwapOwned(s.wrappers, w, from);
        SwapWrapped(s.wrappers, s.heap, w, from);
    }
    Rearranged(s, Perform(s, op));
  }

  lemma AssignKeeps(s: State, w: nat, from: nat)
    requires Inv(s) && w in s.wrappers && from in s.wrappers
    ensures Inv(Perform(s, MoveAssign(w, from)))
  {
    AssignOwned(s.wrappers, s.heap, w, from);
    var (ws, dropped) := AssignFields(s.wrappers, w, from);
    DropKeeps(s, s.(wrappers := ws), dropped);
  }

  lemma HoldingOwned(ws: map<nat, Fields>, w: nat)
    requires w in ws
    ensures Holding(ws[w]) <= OwnedBlocks(ws)
  {
  }

  lemma AssignNullKeeps(s: State, w: nat)
    requires Inv(s) && w in s.wrappers
    ensures Inv(Perform(s, AssignNull(w)))
  {
    EmptiedOwned(s.wrappers, s.heap, w, NULL_FIELDS);
    EmptiedWrapped(s.wrappers, s.heap, w, NULL_FIELDS);
    HoldingOwned(s.wrappers, w);
    DropKeeps(s, s.(wrappers := s.wrappers[w := NULL_FIELDS]), s.wrappers[w]);
  }

  lemma DestroyKeeps(s: State, w: nat)
    requires Inv(s) && w in s.wrappers
    ensures Inv(Perform(s, Destroy(w)))
  {
    RemovedOwned(s.wrappers, s.heap, w);
    RemovedWrapped(s.wrappers, s.heap, w);
    HoldingOwned(s.wrappers, w);
    DropKeeps(s, s.(wrappers := s.wrappers - {w}), s.wrappers[w]);
  }

  lemma TryKeeps(s: State, ops: seq<Op>)
    requires Inv(s)
    ensures Inv(Perform(s, Try(ops)))
  {
    TryBooks(s.todo, ops, s.log, s.next, s.heap.Keys, s.running.Keys, OwnedBlocks(s.wrappers));
  }

  lemma PerformKeeps(s: State, op: Op)
    requires Inv(s) && Legal(s.wrappers, op)
    ensures Inv(Perform(s, op))
  {
    match op
    case Make(w, t) => MakeKeeps(s, w, t);
    case MoveAssign(w, from) => AssignKeeps(s, w, from);
    case AssignNull(w) => AssignNullKeeps(s, w);
    case Destroy(w) => DestroyKeeps(s, w);
    case Call(w) => if s.wrappers[w].impl.Some? { CallKeeps(s, w); } else { EmptyCallKeeps(s, w); }
    case Try(ops) => TryKeeps(s, ops);
    case _ => MoveKeeps(s, op);
  }

  lemma ReleaseKeeps(s: State)
    requires Inv(s) && CanStep(s) && s.todo[0].Release?
    ensures Inv(Step(s))
  {
    var b := s.todo[0].b;
    ReleaseBooks(s.todo, s.log, s.next, s.heap.Keys, s.running.Keys, OwnedBlocks(s.wrappers));
    FreedWrapped(s.wrappers, s.heap, b);
    AddedKey(s.heap, b, s.heap[b]);
  }

  lemma EndCallKeeps(s: State)
    requires Inv(s) && CanStep(s) && s.todo[0].EndCall?
    ensures Inv(Step(s))
  {
    var b := s.todo[0].b;
    var dtor := if b in s.running then s.running[b].dtor else [];
    EndCallBooks(s.todo, dtor, s.log, s.next, s.heap.Keys, s.running.Keys, OwnedBlocks(s.wrappers));
    AddedKey(s.running, b, s.running[b]);
  }

  lemma PopKeeps(s: State)
    requires Inv(s) && CanStep(s) && !s.todo[0].Release? && !s.todo[0].EndCall?
    ensures Inv(s.(todo := s.todo[1..]))
  {
    PopBooks(s.todo, s.log, s.next, s.heap.Keys, s.running.Keys, OwnedBlocks(s.wrappers));
  }

  lemma RethrowKeeps(s: State)
    requires Inv(s)
    ensures Inv(s.(todo := Unwound(s.todo)))
  {
    UnwindBooks(s.todo, s.log, s.next, s.heap.Keys, s.running.Keys, OwnedBlocks(s.wrappers));
  }

  lemma StepKeeps(s: State)
    requires Inv(s) && CanStep(s)
    ensures Inv(Step(s))
  {
    match s.todo[0]
    case Do(op) =>
      PopKeeps(s);
      PerformKeeps(s.(todo := s.todo[1..]), op);
    case Release(_) => ReleaseKeeps(s);
    case EndCall(_) => EndCallKeeps(s);
    case Rethrow =>
      PopKeeps(s);
      RethrowKeeps(s.(todo := s.todo[1..]));
    case _ => PopKeeps(s);
  }
}
