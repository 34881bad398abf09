/**
 Whole runs of programs over any_completion_handler wrappers, and the executor lookup that
 goes through a wrapper's function table.
 */
module HandlerRuns {
  import opened Common
  import opened HandlerSpec
  import opened HandlerProof

  /** n steps, or fewer if the program ends or is about to do something undefined. */
  ghost function After(s: State, n: nat): State
    requires Inv(s)
    ensures Inv(After(s, n))
    decreases n
  {
    if n == 0 || !CanStep(s) then s
    else
      StepKeeps(s);
      After(Step(s), n - 1)
  }

  lemma StartHolds(ops: seq<Op>)
    ensures Inv(Start(ops))
  {
    forall b: nat
      ensures multiset(Program(ops))[Release(b)] == 0 && multiset(Program(ops))[EndCall(b)] == 0
    {
      ProgramCounts(ops, Release(b));
      ProgramCounts(ops, EndCall(b));
    }
  }

  /** At every moment of every run: each target has been called at most once, each block
      freed at most once and each handler destroyed at most once; a block is allocated
      exactly as long as it has not been freed; it then belongs to one wrapper, or its
      release is due, and never to both; and a handler is called only after its block was
      freed. All of it holds however the running handlers re-enter the wrappers. */
  lemma Ownership(ops: seq<Op>, n: nat)
    ensures Inv(Start(ops))
    ensures var s := After(Start(ops), n);
            && (forall b: nat ::
                  && multiset(s.log)[Invoked(b)] <= multiset(s.log)[Freed(b)] <= 1
                  && multiset(s.log)[Died(b)] <= multiset(s.log)[Created(b)] <= 1)
            && (forall b: nat :: b in s.heap <==>
                  multiset(s.log)[Created(b)] == 1 && multiset(s.log)[Freed(b)] == 0)
            && (forall b: nat :: b in s.heap <==>
                  b in OwnedBlocks(s.wrappers) || Release(b) in s.todo)
            && (forall b: nat :: !(b in OwnedBlocks(s.wrappers) && Release(b) in s.todo))
            && (forall v, w :: v in s.wrappers && w in s.wrappers && v != w && s.wrappers[v].impl.Some? ==>
                  s.wrappers[v].impl != s.wrappers[w].impl)
            && (forall i :: 0 <= i < |s.log| && s.log[i].Invoked? ==>
                  i > 0 && s.log[i - 1] == Freed(s.log[i].b))
  {
    StartHolds(ops);
    var s := After(Start(ops), n);
    forall b: nat
      ensures Release(b) in s.todo <==> b in s.heap && b !in OwnedBlocks(s.wrappers)
    {
      assert Release(b) in s.todo <==> multiset(s.todo)[Release(b)] > 0;
    }
  }

  /** When nothing is left to do, the allocated blocks are exactly the non-null impl_
      pointers, and every other block was freed once and its handler destroyed once. */
  lemma Quiescent(ops: seq<Op>, n: nat)
    requires Inv(Start(ops)) && After(Start(ops), n).todo == []
    ensures var s := After(Start(ops), n);
            && s.heap.Keys == OwnedBlocks(s.wrappers)
            && (forall b: nat :: b < s.next && b !in OwnedBlocks(s.wrappers) ==>
                  multiset(s.log)[Freed(b)] == 1 && multiset(s.log)[Died(b)] == 1)
  {
    var s := After(Start(ops), n);
    forall b: nat
      ensures b in s.heap ==> b in OwnedBlocks(s.wrappers)
      ensures b !in s.running
    {
      assert multiset(s.todo)[Release(b)] == 0 && multiset(s.todo)[EndCall(b)] == 0;
    }
  }

  // ----- Empty but with a table -----

  /** No wrapper dangles during the next n steps. */
  ghost predicate Safe(s: State, n: nat)
    decreases n
  {
    NoDangling(s) && (n > 0 && CanStep(s) ==> Safe(Step(s), n - 1))
  }

  ghost function Steps(s: State, n: nat): State
    requires Safe(s, n)
    decreases n
  {
    if n > 0 && CanStep(s) then Steps(Step(s), n - 1) else s
  }

  lemma {:induction false} InvIsSafe(s: State, n: nat)
    requires Inv(s)
    ensures Safe(s, n) && Steps(s, n) == After(s, n)
    decreases n
  {
    if n > 0 && CanStep(s) {
      StepKeeps(s);
      InvIsSafe(Step(s), n - 1);
    }
  }

  /** The wrappers that are empty and yet have the table of handler type k. */
  function SpentWith(ws: map<nat, Fields>, k: nat): set<nat> {
    set w | w in ws && ws[w] == Fields(Some(k), None)
  }

  /** The next step calls a handler. */
  predicate Invokes(s: State) {
    CanStep(s) && s.todo[0].Do? && s.todo[0].op.Call? && s.wrappers[s.todo[0].op.w].impl.Some?
  }

  /** One name replaced by another does not make a set larger. */
  lemma Renamed(a: set<nat>, x: nat, y: nat, r: set<nat>)
    requires x in a && r <= (a - {x}) + {y}
    ensures |r| <= |a|
  {
    assert |a - {x}| == |a| - 1;
    if y !in a - {x} {
      assert |(a - {x}) + {y}| == |a|;
    } else {
      assert (a - {x}) + {y} == a - {x};
    }
    SubsetSize(r, (a - {x}) + {y});
  }

  lemma SubsetSize(a: set<nat>, b: set<nat>)
    requires a <= b
    ensures |a| <= |b|
  {
    if a != {} {
      var x :| x in a;
      SubsetSize(a - {x}, b - {x});
    }
  }

  lemma PerformSpent(s: State, op: Op, k: nat)
    requires NoDangling(s) && Legal(s.wrappers, op) && (op.Call? ==> s.wrappers[op.w].impl.None?)
    ensures |SpentWith(Perform(s, op).wrappers, k)| <= |SpentWith(s.wrappers, k)|
  {
    var a, r := SpentWith(s.wrappers, k), SpentWith(Perform(s, op).wrappers, k);
    if (op.MoveMake? || op.MoveAssign? || op.Swap?) && op.from in a && (op.Swap? ==> op.w !in a) {
      assert r <= (a - {op.from}) + {op.w};
      Renamed(a, op.from, op.w, r);
    } else if op.Swap? && op.w in a && op.from !in a {
      assert r <= (a - {op.w}) + {op.from};
      Renamed(a, op.w, op.from, r);
    } else {
      assert r <= a;
      SubsetSize(r, a);
    }
  }

  /** A call of a handler makes its own wrapper empty and leaves it the table. Every other
      step leaves, for each table, no more such wrappers than there were: what it has of
      them it took over from others. */
  lemma StepSpent(s: State, k: nat)
    requires NoDangling(s) && CanStep(s)
    ensures !Invokes(s) ==> |SpentWith(Step(s).wrappers, k)| <= |SpentWith(s.wrappers, k)|
    ensures Invokes(s) ==>
              var w := s.todo[0].op.w;
              SpentWith(Step(s).wrappers, k)
              == SpentWith(s.wrappers, k) + (if s.wrappers[w].table == Some(k) then {w} else {})
  {
    if s.todo[0].Do? && !Invokes(s) {
      PerformSpent(s.(todo := s.todo[1..]), s.todo[0].op, k);
    }
  }

  /** How many handlers the next n steps call through a table for type k. */
  ghost function CallsOf(s: State, n: nat, k: nat): nat
    requires Safe(s, n)
    decreases n
  {
    if n == 0 || !CanStep(s) then 0
    else
      (if Invokes(s) && s.wrappers[s.todo[0].op.w].table == Some(k) then 1 else 0)
      + CallsOf(Step(s), n - 1, k)
  }

  lemma {:induction false} StepsSpent(s: State, n: nat, k: nat)
    requires Safe(s, n)
    ensures |SpentWith(Steps(s, n).wrappers, k)| <= |SpentWith(s.wrappers, k)| + CallsOf(s, n, k)
    decreases n
  {
    if n > 0 && CanStep(s) {
      StepSpent(s, k);
      StepsSpent(Step(s), n - 1, k);
      if Invokes(s) {
        SubsetSize(SpentWith(Step(s).wrappers, k), SpentWith(s.wrappers, k) + {s.todo[0].op.w});
      }
    }
  }

  /** Where wrappers that are empty and yet have a table come from: in every reachable state
      only a call of a handler makes one, its own wrapper with the handler's table, and any
      other step keeps the multiset of their tables within what it was. So over a run there
      are, for each table, never more of them than handlers of that type called. */
  lemma SpentOnlyByCalls(ops: seq<Op>, n: nat, k: nat)
    ensures Inv(Start(ops)) && Safe(Start(ops), n)
    ensures var s := After(Start(ops), n);
            && (CanStep(s) && !Invokes(s) ==>
                  |SpentWith(Step(s).wrappers, k)| <= |SpentWith(s.wrappers, k)|)
            && (Invokes(s) ==>
                  var w := s.todo[0].op.w;
                  && s.wrappers[w].impl.value in s.heap
                  && s.wrappers[w].table == Some(s.heap[s.wrappers[w].impl.value].kind)
                  && SpentWith(Step(s).wrappers, k)
                     == SpentWith(s.wrappers, k)
                        + (if s.heap[s.wrappers[w].impl.value].kind == k then {w} else {}))
            && |SpentWith(s.wrappers, k)| <= CallsOf(Start(ops), n, k)
  {
    StartHolds(ops);
    InvIsSafe(Start(ops), n);
    StepsSpent(Start(ops), n, k);
    assert SpentWith(Start(ops).wrappers, k) == {};
    var s := After(Start(ops), n);
    if CanStep(s) { StepSpent(s, k); }
  }

  // ----- Dispatch through the table -----

  /** What `fn_table_->executor(impl_, candidate)` does: it downcasts impl_ to the type the
      table was built for. A null or foreign block makes that undefined. */
  datatype Lookup = Found(executor: nat) | Undefined

  function GetExecutor(s: State, w: nat, candidate: nat): Lookup
    requires w in s.wrappers
  {
    var f := s.wrappers[w];
    if f.table.None? then Found(candidate)
    else if f.impl.None? || f.impl.value !in s.heap then Undefined
    else
      var t := s.heap[f.impl.value];
      if Some(t.kind) != f.table then Undefined
      else Found(if t.executor.Some? then t.executor.value else candidate)
  }

  /** In every reachable state the lookup is defined exactly when the wrapper is not spent;
      it then finds the executor of the wrapped handler, or the candidate. */
  lemma DispatchAgrees(ops: seq<Op>, n: nat, w: nat, candidate: nat)
    requires Inv(Start(ops)) && w in After(Start(ops), n).wrappers
    ensures var s := After(Start(ops), n);
            && (GetExecutor(s, w, candidate).Found? <==> !Spent(s.wrappers[w]))
            && (s.wrappers[w].impl.Some? ==>
                  && s.wrappers[w].impl.value in s.heap
                  && var own := s.heap[s.wrappers[w].impl.value].executor;
                     GetExecutor(s, w, candidate) == Found(if own.Some? then own.value else candidate))
            && (s.wrappers[w] == NULL_FIELDS ==> GetExecutor(s, w, candidate) == Found(candidate))
  {
  }

  /** A spent wrapper is reached by one call. */
  lemma SpentReachable(t: Target)
    ensures var ops := [Make(0, t.(body := [])), Call(0)];
            && Inv(Start(ops))
            && 0 in After(Start(ops), 2).wrappers
            && Spent(After(Start(ops), 2).wrappers[0])
  {
    var ops := [Make(0, t.(body := [])), Call(0)];
    StartHolds(ops);
    var s0 := Start(ops);
    assert s0.todo[0] == Do(ops[0]) && CanStep(s0);
    StepKeeps(s0);
    var s1 := Step(s0);
    assert s1.todo[0] == Do(ops[1]) && CanStep(s1);
    StepKeeps(s1);
    assert After(s1, 1) == After(Step(s1), 0);
    assert After(s0, 2) == After(s1, 1);
  }

  /** A self-move keeps the target: the temporary is left empty and nothing is destroyed. */
  lemma SelfMove(s: State, w: nat)
    requires NoDangling(s) && w in s.wrappers
    ensures Perform(s, MoveAssign(w, w)) == s
  {
    assert s.wrappers[w := NULL_FIELDS][w := s.wrappers[w]] == s.wrappers;
  }
}
