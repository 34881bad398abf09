/**
 The wrappers of asio/any_completion_handler.hpp as objects, and a run-time system that
 executes programs over them. Its steps are proved to be those of HandlerSpec.
 */
module HandlerRuntime {
  import opened Common
  import Spec = HandlerSpec
  import opened HandlerSpec
  import opened HandlerProof

  class AnyCompletionHandler {
    var fnTable: Option<nat>
    var impl: Option<nat>

    function Contents(): Fields
      reads this
    {
      Fields(fnTable, impl)
    }

    constructor ()
      ensures Contents() == NULL_FIELDS
    {
      fnTable, impl := None, None;
    }

    /** The wrapper of a target whose block was created as `block`. */
    constructor FromTarget(kind: nat, block: nat)
      ensures Contents() == Fields(Some(kind), Some(block))
    {
      fnTable, impl := Some(kind), Some(block);
    }

    constructor MoveFrom(other: AnyCompletionHandler)
      modifies other
      ensures Contents() == old(other.Contents()) && other.Contents() == NULL_FIELDS
    {
      fnTable, impl := other.fnTable, other.impl;
      new;
      other.fnTable, other.impl := None, None;
    }

    method Swap(other: AnyCompletionHandler)
      modifies this, other
      ensures Contents() == old(other.Contents()) && other.Contents() == old(Contents())
    {
      fnTable, other.fnTable := other.fnTable, fnTable;
      impl, other.impl := other.impl, impl;
    }

    /** Returns the temporary, whose destructor is the next thing to run. */
    method MoveAssign(other: AnyCompletionHandler) returns (temporary: AnyCompletionHandler)
      modifies this, other
      ensures fresh(temporary)
      ensures Contents() == old(other.Contents())
      ensures other != this ==> other.Contents() == NULL_FIELDS && temporary.Contents() == old(Contents())
      ensures other == this ==> temporary.Contents() == NULL_FIELDS
    {
      temporary := new AnyCompletionHandler.MoveFrom(other);
      temporary.Swap(this);
    }

    method AssignNull() returns (temporary: AnyCompletionHandler)
      modifies this
      ensures fresh(temporary)
      ensures Contents() == NULL_FIELDS && temporary.Contents() == old(Contents())
    {
      temporary := new AnyCompletionHandler();
      temporary.Swap(this);
    }

    /** The part of `operator()` before the call: takes the block and leaves the table. */
    method Release() returns (block: Option<nat>)
      modifies this`impl
      ensures block == old(impl) && impl == None
    {
      block := impl;
      impl := None;
    }
  }

  class Runtime {
    var todo: seq<Instr>
    var handlers: map<nat, AnyCompletionHandler>
    var heap: map<nat, Target>
    var running: map<nat, Target>
    var next: nat
    var log: seq<Event>

    /** No two names stand for the same wrapper. */
    ghost predicate Valid()
      reads this
    {
      forall v, w :: v in handlers && w in handlers && v != w ==> handlers[v] != handlers[w]
    }

    function Wrappers(): (ws: map<nat, Fields>)
      reads this, handlers.Values
      ensures ws.Keys == handlers.Keys
    {
      map w | w in handlers :: handlers[w].Contents()
    }

    function View(): State
      reads this, handlers.Values
    {
      State(todo, Wrappers(), heap, running, next, log)
    }

    constructor (ops: seq<Op>)
      ensures Valid() && View() == Start(ops)
    {
      todo, handlers, heap, running, next, log := Program(ops), map[], map[], map[], 0, [];
    }

    /** `create`: a new block for the target. */
    method Create(t: Target) returns (b: nat)
      modifies this`heap, this`next, this`log
      ensures b == old(next) && next == b + 1
      ensures heap == old(heap)[b := t] && log == old(log) + [Created(b)]
    {
      b := next;
      heap, next, log := heap[b := t], next + 1, log + [Created(b)];
    }

    /** The destructor of a wrapper: destroys the target, whose destructor may run further
        operations, and then frees the block. */
    method Destruct(h: AnyCompletionHandler)
      requires h.impl.Some? ==> h.impl.value in heap
      modifies this`todo, this`log
      ensures View() == Drop(old(View()), h.Contents())
    {
      if h.impl.Some? {
        var b := h.impl.value;
        todo := Program(heap[b].dtor) + [Spec.Release(b)] + todo;
        log := log + [Died(b)];
      }
    }

    method Make(w: nat, t: Target)
      requires Valid() && w !in handlers && NoDangling(View())
      modifies this`handlers, this`heap, this`next, this`log
      ensures Valid() && fresh(handlers.Values - old(handlers.Values))
      ensures View() == Perform(old(View()), Spec.Make(w, t))
    {
      var b := Create(t);
      var h := new AnyCompletionHandler.FromTarget(t.kind, b);
      handlers := handlers[w := h];
    }

    method MakeEmpty(w: nat)
      requires Valid() && w !in handlers && NoDangling(View())
      modifies this`handlers
      ensures Valid() && fresh(handlers.Values - old(handlers.Values))
      ensures View() == Perform(old(View()), Spec.MakeEmpty(w))
    {
      var h := new AnyCompletionHandler();
      handlers := handlers[w := h];
    }

    method MoveMake(w: nat, from: nat)
      requires Valid() && w !in handlers && from in handlers && NoDangling(View())
      modifies this`handlers, handlers[from]
      ensures Valid() && fresh(handlers.Values - old(handlers.Values))
      ensures View() == Perform(old(View()), Spec.MoveMake(w, from))
    {
      var h := new AnyCompletionHandler.MoveFrom(handlers[from]);
      handlers := handlers[w := h];
      assert Wrappers() == Perform(old(View()), Spec.MoveMake(w, from)).wrappers;
    }

    method MoveAssign(w: nat, from: nat)
      requires Valid() && w in handlers && from in handlers && NoDangling(View())
      modifies this`todo, this`log, handlers[w], handlers[from]
      ensures Valid()
      ensures View() == Perform(old(View()), Spec.MoveAssign(w, from))
    {
      var temporary := handlers[w].MoveAssign(handlers[from]);
      ghost var (ws, dropped) := AssignFields(old(Wrappers()), w, from);
      assert Wrappers() == ws && temporary.Contents() == dropped;
      Destruct(temporary);
    }

    method AssignNull(w: nat)
      requires Valid() && w in handlers && NoDangling(View())
      modifies this`todo, this`log, handlers[w]
      ensures Valid()
      ensures View() == Perform(old(View()), Spec.AssignNull(w))
    {
      var temporary := handlers[w].AssignNull();
      assert Wrappers() == old(Wrappers())[w := NULL_FIELDS];
      Destruct(temporary);
    }

    method Swap(w: nat, from: nat)
      requires Valid() && w in handlers && from in handlers && NoDangling(View())
      modifies handlers[w], handlers[from]
      ensures Valid()
      ensures View() == Perform(old(View()), Spec.Swap(w, from))
    {
      handlers[w].Swap(handlers[from]);
      assert Wrappers() == Perform(old(View()), Spec.Swap(w, from)).wrappers;
    }

    method Destroy(w: nat)
      requires Valid() && w in handlers && NoDangling(View())
      modifies this`handlers, this`todo, this`log
      ensures Valid() && handlers.Values <= old(handlers.Values)
      ensures View() == Perform(old(View()), Spec.Destroy(w))
    {
      var h := handlers[w];
      handlers := handlers - {w};
      assert Wrappers() == old(Wrappers()) - {w};
      Destruct(h);
    }

    /** `call`: the handler is moved out of its block and the block freed before it runs. */
    method Invoke(b: nat)
      requires b in heap
      modifies this`todo, this`heap, this`running, this`log
      ensures heap == old(heap) - {b} && running == old(running)[b := old(heap)[b]]
      ensures log == old(log) + [Freed(b), Invoked(b)]
      ensures todo == Program(old(heap)[b].body) + [EndCall(b)] + old(todo)
    {
      var handler := heap[b];
      heap, log := heap - {b}, log + [Freed(b)];
      running, log := running[b := handler], log + [Invoked(b)];
      todo := Program(handler.body) + [EndCall(b)] + todo;
    }

    /** `operator()`, up to the first operation of the handler. */
    method Call(w: nat)
      requires Valid() && w in handlers && NoDangling(View())
      modifies this`todo, this`heap, this`running, this`log, handlers[w]
      ensures Valid()
      ensures View() == Perform(old(View()), Spec.Call(w))
      ensures old(handlers[w].impl).None? ==>
                forall skipped, rest :: old(todo) == Program(skipped) + rest ==> Landed(rest, todo)
    {
      assert Wrappers()[w] == handlers[w].Contents();
      if handlers[w].impl.None? {
        log := log + [BadCall(w)];
        forall skipped, rest | todo == Program(skipped) + rest
          ensures Landed(rest, Unwound(todo))
        {
          UnwoundLands(skipped, rest);
        }
        todo := Unwound(todo);
        assert Wrappers() == old(Wrappers());
      } else {
        var block := handlers[w].Release();
        Invoke(block.value);
        assert Wrappers() == old(Wrappers())[w := old(Wrappers())[w].(impl := None)];
      }
    }

    method Execute(op: Op)
      requires Valid() && Legal(Wrappers(), op) && NoDangling(View())
      modifies this, handlers.Values
      ensures Valid() && fresh(handlers.Values - old(handlers.Values))
      ensures View() == Perform(old(View()), op)
    {
      match op
      case MakeEmpty(w) => MakeEmpty(w);
      case Make(w, t) => Make(w, t);
      case MoveMake(w, from) => MoveMake(w, from);
      case MoveAssign(w, from) => MoveAssign(w, from);
      case AssignNull(w) => AssignNull(w);
      case Swap(w, from) => Swap(w, from);
      case Destroy(w) => Destroy(w);
      case Call(w) => Call(w);
      case Try(ops) =>
        todo := Program(ops) + [EndTry] + todo;
        assert Wrappers() == old(Wrappers());
    }

    /** The end of a `destroy`, of a handler's run or of a block, and an exception passing on. */
    method Return(instr: Instr)
      requires Valid() && !instr.Do? && !instr.Terminate? && NoDangling(View())
      modifies this`todo, this`heap, this`running, this`log
      ensures View() == Spec.Step(old(View()).(todo := [instr] + old(todo)))
    {
      assert ([instr] + todo)[1..] == todo;
      if instr.Release? {
        heap, log := heap - {instr.b}, log + [Freed(instr.b)];
      } else if instr.Rethrow? {
        todo := Unwound(todo);
      } else if instr.EndCall? && instr.b in running {
        todo := Program(running[instr.b].dtor) + [EndDtor] + todo;
        running, log := running - {instr.b}, log + [Died(instr.b)];
      }
      assert Wrappers() == old(Wrappers());
    }

    /** One step of the machine. */
    method StepOnce()
      requires Valid() && CanStep(View()) && NoDangling(View())
      modifies this, handlers.Values
      ensures Valid() && fresh(handlers.Values - old(handlers.Values))
      ensures View() == Spec.Step(old(View()))
    {
      var instr := todo[0];
      todo := todo[1..];
      assert old(todo) == [instr] + todo;
      assert View() == old(View()).(todo := todo);
      if instr.Do? {
        Execute(instr.op);
      } else {
        Return(instr);
      }
    }
  }
}
