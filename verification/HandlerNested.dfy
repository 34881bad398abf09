/**
 What programs over any_completion_handler wrappers mean, without a call stack: each operation
 is evaluated in full, with the handlers and destructors it runs nested inside it, and ends
 normally or by an exception. The machine of HandlerSpec is proved to do just that.
 */
module HandlerNested {
  import opened Common
  import opened HandlerSpec
  import opened HandlerProof
  import opened HandlerRuns
  import opened HandlerEnds

  /** The wrappers, the allocated blocks, the number of blocks ever allocated, and what happened. */
  datatype Memory = Memory(wrappers: map<nat, Fields>, heap: map<nat, Target>, next: nat, log: seq<Event>)

  /** How an evaluation ends: normally, by the exception of an empty call, by the end of the
      program because an exception would leave a destructor, or at an operation on a wrapper
      outside its lifetime. The depth of nesting may be more than was allowed for. */
  datatype Exit = Normal | Thrown | Terminated | Forbidden | TooDeep

  datatype Result = Result(m: Memory, exit: Exit)

  function Note(m: Memory, e: Event): Memory { m.(log := m.log + [e]) }

  function Eval(m: Memory, ops: seq<Op>, depth: nat): Result
    decreases depth, |ops| + 1
  {
    if ops == [] then Result(m, Normal) else
    var first := EvalOp(m, ops[0], depth);
    if first.exit.Normal? then Eval(first.m, ops[1..], depth) else first
  }

  function EvalOp(m: Memory, op: Op, depth: nat): Result
    decreases depth, 1
  {
    var ws := m.wrappers;
    match op
    case MakeEmpty(w) =>
      if w in ws then Result(m, Forbidden) else Result(m.(wrappers := ws[w := NULL_FIELDS]), Normal)
    case Make(w, t) =>
      if w in ws then Result(m, Forbidden)
      else
        var made := Fields(Some(t.kind), Some(m.next));
        Result(Note(m.(wrappers := ws[w := made], heap := m.heap[m.next := t], next := m.next + 1),
                    Created(m.next)), Normal)
    case MoveMake(w, from) =>
      if w in ws || from !in ws then Result(m, Forbidden)
      else Result(m.(wrappers := ws[from := NULL_FIELDS][w := ws[from]]), Normal)
    case MoveAssign(w, from) =>
      if w !in ws || from !in ws then Result(m, Forbidden)
      else if w == from then Result(m, Normal)
      else EvalDrop(m.(wrappers := ws[from := NULL_FIELDS][w := ws[from]]), ws[w].impl, depth)
    case AssignNull(w) =>
      if w !in ws then Result(m, Forbidden)
      else EvalDrop(m.(wrappers := ws[w := NULL_FIELDS]), ws[w].impl, depth)
    case Swap(w, from) =>
      if w !in ws || from !in ws then Result(m, Forbidden)
      else Result(m.(wrappers := ws[from := ws[w]][w := ws[from]]), Normal)
    case Destroy(w) =>
      if w !in ws then Result(m, Forbidden)
      else EvalDrop(m.(wrappers := ws - {w}), ws[w].impl, depth)
    case Call(w) =>
      if w !in ws then Result(m, Forbidden) else EvalCall(m, w, ws[w], depth)
    case Try(ops) =>
      if depth == 0 then Result(m, TooDeep)
      else
        var r := Eval(m, ops, depth - 1);
        if r.exit.Thrown? then Result(r.m, Normal) else r
  }

  /** The destructor of a wrapper with this block: the target's destructor runs, and then the
      block is freed. An exception may not leave it. */
  function EvalDrop(m: Memory, impl: Option<nat>, depth: nat): Result
    decreases depth, 0
  {
    if impl.None? then Result(m, Normal)
    else if impl.value !in m.heap then Result(m, Forbidden)
    else if depth == 0 then Result(m, TooDeep)
    else
      var b := impl.value;
      var r := EvalDtor(Note(m, Died(b)), m.heap[b], depth - 1);
      if r.exit.Normal? then Result(Note(r.m.(heap := r.m.heap - {b}), Freed(b)), Normal) else r
  }

  function EvalDtor(m: Memory, t: Target, depth: nat): Result
    decreases depth, |t.dtor| + 2
  {
    var r := Eval(m, t.dtor, depth);
    if r.exit.Thrown? then Result(r.m, Terminated) else r
  }

  /** A call through a wrapper. The handler moves into the call and its block is freed; then it
      runs, and is destroyed whether or not an exception leaves it. */
  function EvalCall(m: Memory, w: nat, f: Fields, depth: nat): Result
    decreases depth, 0
  {
    if f.impl.None? then Result(Note(m, BadCall(w)), Thrown)
    else if f.impl.value !in m.heap then Result(m, Forbidden)
    else if depth == 0 then Result(m, TooDeep)
    else
      var b := f.impl.value;
      var freed := m.(wrappers := m.wrappers[w := Fields(f.table, None)], heap := m.heap - {b});
      var body := Eval(Note(Note(freed, Freed(b)), Invoked(b)), m.heap[b].body, depth - 1);
      if !body.exit.Normal? && !body.exit.Thrown? then body
      else
        var died := EvalDtor(Note(body.m, Died(b)), m.heap[b], depth - 1);
        if died.exit.Normal? then Result(died.m, body.exit) else died
  }

  // ----- The machine -----

  function MemoryOf(s: State): Memory { Memory(s.wrappers, s.heap, s.next, s.log) }

  /** The invariant holds n steps from here, if there are as many. */
  ghost predicate InvAfter(s: State, n: nat)
    decreases n
  {
    if n == 0 then Inv(s) else NoDangling(s) && CanStep(s) ==> InvAfter(Step(s), n - 1)
  }

  /** It holds here and from here on. */
  ghost predicate Sound(s: State) { forall n: nat :: InvAfter(s, n) }

  lemma SoundIsInv(s: State)
    requires Sound(s)
    ensures Inv(s)
  {
    assert InvAfter(s, 0);
  }

  lemma {:induction false} InvHolds(s: State, n: nat)
    requires Inv(s)
    ensures InvAfter(s, n)
    decreases n
  {
    if n > 0 && CanStep(s) {
      var t := InvStep(s);
      InvHolds(t, n - 1);
    }
  }

  lemma InvStep(s: State) returns (t: State)
    requires Inv(s) && CanStep(s)
    ensures NoDangling(s) && t == Step(s) && Inv(t)
  {
    StepKeeps(s);
    t := Step(s);
  }

  lemma InvIsSound(s: State)
    requires Inv(s)
    ensures Sound(s)
  {
    forall n: nat
      ensures InvAfter(s, n)
    {
      InvHolds(s, n);
    }
  }

  /** n steps lead from s to t. */
  ghost predicate Path(s: State, t: State, n: nat)
    decreases n
  {
    if n == 0 then s == t else NoDangling(s) && CanStep(s) && Path(Step(s), t, n - 1)
  }

  ghost predicate Leads(s: State, t: State) { exists n: nat :: Path(s, t, n) }

  lemma {:induction false} PathChain(s: State, t: State, u: State, n: nat, k: nat)
    requires Path(s, t, n) && Path(t, u, k)
    ensures Path(s, u, n + k)
    decreases n
  {
    if n > 0 {
      PathChain(Step(s), t, u, n - 1, k);
    }
  }

  lemma Joined(s: State, t: State, u: State)
    requires Leads(s, t) && Leads(t, u)
    ensures Leads(s, u)
  {
    var n: nat :| Path(s, t, n);
    var k: nat :| Path(t, u, k);
    PathChain(s, t, u, n, k);
  }

  lemma Stays(s: State)
    ensures Leads(s, s)
  {
    assert Path(s, s, 0);
  }

  /** One step. */
  lemma Onward(s: State) returns (t: State)
    requires Sound(s) && CanStep(s)
    ensures NoDangling(s) && t == Step(s)
    ensures Sound(t) && Leads(s, t) && Weight(t) <= Weight(s)
  {
    SoundIsInv(s);
    StepKeeps(s);
    StepWeight(s);
    t := Step(s);
    InvIsSound(t);
    assert Path(t, t, 0);
    assert Path(s, t, 1);
  }

  // ----- The machine evaluates -----

  /** The state the machine is in once an evaluation that started in s, with `rest` left to do
      after it, has ended with r. */
  ghost predicate Reached(s: State, rest: seq<Instr>, t: State, r: Result) {
    && MemoryOf(t) == r.m
    && (r.exit.Normal? ==> t.todo == rest && t.running == s.running)
    && (r.exit.Thrown? ==> t.todo == Unwound(rest) && t.running == s.running)
    && (r.exit.Terminated? ==> t.todo != [] && t.todo[0].Terminate?)
    && (r.exit.Forbidden? ==> t.todo != [] && t.todo[0].Do? && !Legal(t.wrappers, t.todo[0].op))
    && !r.exit.TooDeep?
  }

  lemma Unwinding(rest: seq<Instr>, b: nat)
    ensures Unwound([EndTry] + rest) == rest
    ensures Unwound([EndCall(b)] + rest) == [EndCall(b), Rethrow] + rest
    ensures Unwound([Release(b)] + rest)[0] == Terminate
    ensures Unwound([EndDtor] + rest)[0] == Terminate
  {
    assert ([EndTry] + rest)[1..] == rest;
    assert ([EndCall(b)] + rest)[1..] == rest;
  }

  lemma Reassociated(a: seq<Instr>, i: Instr, rest: seq<Instr>)
    ensures a + [i] + rest == a + ([i] + rest)
  {
  }

  lemma Depths(i: Instr, rest: seq<Instr>)
    ensures StackWeight([i] + rest) == InstrWeight(i) + StackWeight(rest)
  {
    assert ([i] + rest)[1..] == rest;
  }

  /** The machine does what `Eval` says, however deep the nesting. */
  lemma {:induction false} Refines(s: State, ops: seq<Op>, rest: seq<Instr>, depth: nat) returns (t: State)
    requires Sound(s) && s.todo == Program(ops) + rest && Weight(s) <= depth + StackWeight(rest)
    ensures Leads(s, t) && Sound(t) && Weight(t) <= Weight(s)
    ensures Reached(s, rest, t, Eval(MemoryOf(s), ops, depth))
    decreases depth, |ops| + 2
  {
    if ops == [] {
      assert Program(ops) + rest == rest;
      t := s;
      Stays(s);
    } else {
      var more := Program(ops[1..]) + rest;
      assert s.todo == [Do(ops[0])] + more;
      MoreWeight(ops[1..], rest);
      var u := RefinesOp(s, ops[0], more, depth);
      var first := EvalOp(MemoryOf(s), ops[0], depth);
      if first.exit.Normal? {
        t := Refines(u, ops[1..], rest, depth);
        Joined(s, u, t);
      } else {
        t := u;
        UnwoundPast(ops[1..], rest);
      }
    }
  }

  lemma MoreWeight(ops: seq<Op>, rest: seq<Instr>)
    ensures StackWeight(Program(ops) + rest) >= StackWeight(rest)
  {
    StackAppend(Program(ops), rest);
  }

  /** A destructor that runs before `end`, the rest of what brought it about. */
  lemma RefinesDtor(s: State, target: Target, end: Instr, rest: seq<Instr>, depth: nat) returns (t: State)
    requires Sound(s) && s.todo == Program(target.dtor) + [end] + rest && (end.Release? || end.EndDtor?)
    requires Weight(s) <= depth + 1 + StackWeight(rest)
    ensures Leads(s, t) && Sound(t) && Weight(t) <= Weight(s)
    ensures Reached(s, [end] + rest, t, EvalDtor(MemoryOf(s), target, depth))
    ensures !EvalDtor(MemoryOf(s), target, depth).exit.Thrown?
    decreases depth, |target.dtor| + 3
  {
    Reassociated(Program(target.dtor), end, rest);
    Depths(end, rest);
    t := Refines(s, target.dtor, [end] + rest, depth);
    Unwinding(rest, if end.Release? then end.b else 0);
  }

  /** s is the state after an operation that took the block out of its wrapper, and m the memory
      before its destructor starts. */
  lemma RefinesDrop(s: State, m: Memory, impl: Option<nat>, rest: seq<Instr>, depth: nat) returns (t: State)
    requires Sound(s) && Weight(s) <= depth + StackWeight(rest)
    requires impl.None? ==> s.todo == rest && MemoryOf(s) == m
    requires impl.Some? ==>
               var b := impl.value;
               && b in m.heap && MemoryOf(s) == Note(m, Died(b))
               && s.todo == Program(m.heap[b].dtor) + [Release(b)] + rest
    ensures Leads(s, t) && Sound(t) && Weight(t) <= Weight(s)
    ensures Reached(s, rest, t, EvalDrop(m, impl, depth))
    decreases depth, 0
  {
    if impl.None? {
      t := s;
      Stays(s);
    } else {
      var b := impl.value;
      PushedWeight(m.heap[b].dtor, Release(b), rest);
      var u := RefinesDtor(s, m.heap[b], Release(b), rest, depth - 1);
      t := u;
      if u.todo == [Release(b)] + rest && EvalDtor(MemoryOf(s), m.heap[b], depth - 1).exit.Normal? {
        t := Onward(u);
        Joined(s, u, t);
      }
    }
  }

  /** The return from the handler of block b, by which it is destroyed. */
  lemma RefinesReturn(s: State, b: nat, target: Target, rest: seq<Instr>, depth: nat) returns (t: State)
    requires Sound(s) && s.todo == [EndCall(b)] + rest && b in s.running && s.running[b] == target
    requires Weight(s) <= depth + 1 + StackWeight(rest)
    ensures Leads(s, t) && Sound(t) && Weight(t) <= Weight(s)
    ensures var r := EvalDtor(Note(MemoryOf(s), Died(b)), target, depth);
            !r.exit.Thrown? && Reached(s.(running := s.running - {b}), rest, t, r)
    decreases depth, |target.dtor| + 4
  {
    assert s.todo[1..] == rest;
    var u := Onward(s);
    assert u.todo == Program(target.dtor) + [EndDtor] + rest;
    assert MemoryOf(u) == Note(MemoryOf(s), Died(b));
    t := RefinesDtor(u, target, EndDtor, rest, depth);
    Joined(s, u, t);
    if EvalDtor(MemoryOf(u), target, depth).exit.Normal? {
      assert t.todo[1..] == rest;
      var v := Onward(t);
      Joined(s, t, v);
      t := v;
    }
  }

  lemma CalledFacts(s: State, w: nat) returns (b: nat)
    requires Sound(s) && w in s.wrappers && s.wrappers[w].impl.Some?
    ensures s.wrappers[w].impl == Some(b) && b in s.heap && b !in s.running
  {
    SoundIsInv(s);
    b := s.wrappers[w].impl.value;
    assert b in OwnedBlocks(s.wrappers);
    OwnedFacts(s, b);
  }

  /** A call of a handler, up to its first operation. */
  lemma Entered(s: State, w: nat, b: nat, rest: seq<Instr>) returns (t: State)
    requires Sound(s) && s.todo == [Do(Call(w))] + rest
    requires w in s.wrappers && s.wrappers[w].impl == Some(b) && b in s.heap
    ensures Leads(s, t) && Sound(t) && Weight(t) <= Weight(s)
    ensures t.todo == Program(s.heap[b].body) + [EndCall(b)] + rest && t.running == s.running[b := s.heap[b]]
    ensures var freed := MemoryOf(s).(wrappers := s.wrappers[w := Fields(s.wrappers[w].table, None)],
                                      heap := s.heap - {b});
            MemoryOf(t) == Note(Note(freed, Freed(b)), Invoked(b))
  {
    assert s.todo[1..] == rest;
    t := Onward(s);
    assert s.log + [Freed(b), Invoked(b)] == (s.log + [Freed(b)]) + [Invoked(b)];
  }

  /** The body, from the first operation of the handler on. */
  lemma RefinesBody(s: State, b: nat, target: Target, rest: seq<Instr>, depth: nat) returns (t: State)
    requires Sound(s) && s.todo == Program(target.body) + ([EndCall(b)] + rest)
    requires Weight(s) <= depth + 2 + StackWeight(rest)
    ensures Leads(s, t) && Sound(t) && Weight(t) <= Weight(s)
    ensures var r := Eval(MemoryOf(s), target.body, depth);
            && Reached(s, [EndCall(b)] + rest, t, r)
            && (r.exit.Thrown? ==> t.todo == [EndCall(b)] + ([Rethrow] + rest))
    decreases depth, |target.body| + 3
  {
    Depths(EndCall(b), rest);
    t := Refines(s, target.body, [EndCall(b)] + rest, depth);
    Unwinding(rest, b);
    assert [EndCall(b), Rethrow] + rest == [EndCall(b)] + ([Rethrow] + rest);
  }

  /** The handler is destroyed, and the exception that left it, if any, goes on. */
  lemma RefinesExit(s: State, b: nat, target: Target, thrown: bool, rest: seq<Instr>, depth: nat) returns (t: State)
    requires Sound(s) && b in s.running && s.running[b] == target && Weight(s) <= depth + 1 + StackWeight(rest)
    requires s.todo == [EndCall(b)] + (if thrown then [Rethrow] + rest else rest)
    ensures Leads(s, t) && Sound(t) && Weight(t) <= Weight(s)
    ensures var died := EvalDtor(Note(MemoryOf(s), Died(b)), target, depth);
            Reached(s.(running := s.running - {b}), rest, t,
                    if died.exit.Normal? then Result(died.m, if thrown then Thrown else Normal) else died)
    decreases depth, |target.dtor| + 5
  {
    if thrown {
      Depths(Rethrow, rest);
      t := RefinesReturn(s, b, target, [Rethrow] + rest, depth);
      if EvalDtor(Note(MemoryOf(s), Died(b)), target, depth).exit.Normal? {
        assert t.todo[1..] == rest;
        var u := Onward(t);
        Joined(s, t, u);
        t := u;
      }
    } else {
      t := RefinesReturn(s, b, target, rest, depth);
    }
  }

  lemma BackAsBefore(running: map<nat, Target>, b: nat, target: Target)
    requires b !in running
    ensures running[b := target] - {b} == running
  {
  }

  lemma RefinesCall(s: State, w: nat, rest: seq<Instr>, depth: nat) returns (t: State)
    requires Sound(s) && s.todo == [Do(Call(w))] + rest && w in s.wrappers
    requires Weight(s) <= depth + StackWeight(rest)
    ensures Leads(s, t) && Sound(t) && Weight(t) <= Weight(s)
    ensures Reached(s, rest, t, EvalCall(MemoryOf(s), w, s.wrappers[w], depth))
    decreases depth, 0
  {
    if s.wrappers[w].impl.None? {
      assert s.todo[1..] == rest;
      t := Onward(s);
    } else {
      Depths(Do(Call(w)), rest);
      var b := CalledFacts(s, w);
      var target := s.heap[b];
      var u := Entered(s, w, b, rest);
      BackAsBefore(s.running, b, target);
      Reassociated(Program(target.body), EndCall(b), rest);
      t := RefinesBody(u, b, target, rest, depth - 1);
      Joined(s, u, t);
      var body := Eval(MemoryOf(u), target.body, depth - 1);
      if body.exit.Normal? || body.exit.Thrown? {
        var v := RefinesExit(t, b, target, body.exit.Thrown?, rest, depth - 1);
        Joined(s, t, v);
        t := v;
      }
    }
  }

  lemma RefinesTry(s: State, ops: seq<Op>, rest: seq<Instr>, depth: nat) returns (t: State)
    requires Sound(s) && s.todo == [Do(Try(ops))] + rest && Weight(s) <= depth + StackWeight(rest)
    ensures Leads(s, t) && Sound(t) && Weight(t) <= Weight(s)
    ensures Reached(s, rest, t, EvalOp(MemoryOf(s), Try(ops), depth))
    decreases depth, 0
  {
    assert s.todo[1..] == rest;
    Depths(Do(Try(ops)), rest);
    Depths(EndTry, rest);
    var u := Onward(s);
    Reassociated(Program(ops), EndTry, rest);
    t := Refines(u, ops, [EndTry] + rest, depth - 1);
    Joined(s, u, t);
    Unwinding(rest, 0);
    if Eval(MemoryOf(s), ops, depth - 1).exit.Normal? {
      assert t.todo[1..] == rest;
      var v := Onward(t);
      Joined(s, t, v);
      t := v;
    }
  }

  /** The operations that run no handler and no destructor. */
  lemma RefinesMove(s: State, op: Op, rest: seq<Instr>, depth: nat) returns (t: State)
    requires Sound(s) && s.todo == [Do(op)] + rest && Legal(s.wrappers, op)
    requires op.MakeEmpty? || op.Make? || op.MoveMake? || op.Swap?
    ensures Leads(s, t) && Sound(t) && Weight(t) <= Weight(s)
    ensures Reached(s, rest, t, EvalOp(MemoryOf(s), op, depth))
  {
    assert s.todo[1..] == rest;
    t := Onward(s);
    assert t.wrappers == EvalOp(MemoryOf(s), op, depth).m.wrappers;
  }

  /** What the temporary of an assignment, or a wrapper at the end of its lifetime, takes along. */
  lemma RefinesGivenUp(s: State, op: Op, rest: seq<Instr>, depth: nat) returns (t: State)
    requires Sound(s) && s.todo == [Do(op)] + rest && Legal(s.wrappers, op)
    requires op.MoveAssign? || op.AssignNull? || op.Destroy?
    requires Weight(s) <= depth + StackWeight(rest)
    ensures Leads(s, t) && Sound(t) && Weight(t) <= Weight(s)
    ensures Reached(s, rest, t, EvalOp(MemoryOf(s), op, depth))
    decreases depth, 1
  {
    assert s.todo[1..] == rest;
    var ws := s.wrappers;
    var us :=
      if op.MoveAssign? then ws[op.from := NULL_FIELDS][op.w := ws[op.from]]
      else if op.AssignNull? then ws[op.w := NULL_FIELDS]
      else ws - {op.w};
    var impl := if op.MoveAssign? && op.w == op.from then None else ws[op.w].impl;
    if op.MoveAssign? && op.w == op.from { assert us == ws; }
    var u := Onward(s);
    assert u.wrappers == us;
    t := RefinesDrop(u, MemoryOf(s).(wrappers := us), impl, rest, depth);
    Joined(s, u, t);
  }

  lemma RefinesOp(s: State, op: Op, rest: seq<Instr>, depth: nat) returns (t: State)
    requires Sound(s) && s.todo == [Do(op)] + rest && Weight(s) <= depth + StackWeight(rest)
    ensures Leads(s, t) && Sound(t) && Weight(t) <= Weight(s)
    ensures Reached(s, rest, t, EvalOp(MemoryOf(s), op, depth))
    decreases depth, 2
  {
    if !Legal(s.wrappers, op) {
      t := s;
      Stays(s);
    } else {
      match op {
        case Call(w) => t := RefinesCall(s, w, rest, depth);
        case Try(ops) => t := RefinesTry(s, ops, rest, depth);
        case MoveAssign(_, _) => t := RefinesGivenUp(s, op, rest, depth);
        case AssignNull(_) => t := RefinesGivenUp(s, op, rest, depth);
        case Destroy(_) => t := RefinesGivenUp(s, op, rest, depth);
        case _ => t := RefinesMove(s, op, rest, depth);
      }
    }
  }

  // ----- Programs -----

  /** Every program is evaluated to its end with nesting no deeper than its weight. */
  function Meaning(ops: seq<Op>): Result { Eval(Memory(map[], map[], 0, []), ops, OpsWeight(ops)) }

  /** A run has one end. */
  lemma {:induction false} PathIsSteps(s: State, t: State, n: nat, m: nat)
    requires Path(s, t, n) && !CanStep(t) && Safe(s, m) && !CanStep(Steps(s, m))
    ensures Steps(s, m) == t
    decreases n
  {
    if n > 0 && m > 0 {
      PathIsSteps(Step(s), t, n - 1, m - 1);
    }
  }

  /** The machine ends every program in the memory that its evaluation leaves: with an empty
      call stack if that ended normally, terminated if an exception left the program or a
      destructor, and before the operation that is undefined if there is one. */
  lemma MachineEvaluates(ops: seq<Op>)
    ensures Inv(Start(ops))
    ensures var s, r := After(Start(ops), Bound(ops)), Meaning(ops);
            && MemoryOf(s) == r.m && !r.exit.TooDeep?
            && (r.exit.Normal? <==> s.todo == [])
            && (r.exit.Thrown? || r.exit.Terminated? <==> s.todo != [] && s.todo[0].Terminate?)
            && (r.exit.Forbidden? <==> s.todo != [] && s.todo[0].Do? && !Legal(s.wrappers, s.todo[0].op))
  {
    RunsEnd(ops, Bound(ops));
    var t := Evaluated(ops);
    var n: nat :| Path(Start(ops), t, n);
    InvIsSafe(Start(ops), Bound(ops));
    PathIsSteps(Start(ops), t, n, Bound(ops));
  }

  lemma Evaluated(ops: seq<Op>) returns (t: State)
    ensures Leads(Start(ops), t) && Reached(Start(ops), [], t, Meaning(ops))
    ensures !CanStep(t)
  {
    StartHolds(ops);
    InvIsSound(Start(ops));
    ProgramWeight(ops);
    assert Start(ops).todo == Program(ops) + [];
    t := Refines(Start(ops), ops, [], OpsWeight(ops));
  }
}
