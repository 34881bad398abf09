/**
 Nests of binders around a completion handler, and the associators that look through them:
 asio/bind_executor.hpp, bind_allocator.hpp, bind_cancellation_slot.hpp,
 bind_immediate_executor.hpp and the four associated_*.hpp.
 */
module BinderNest {
  import opened Common

  /** An executor: its C++ type, its identity, and whether it never blocks. */
  datatype Executor = Executor(cxxType: nat, id: nat, never: bool)

  function RequireNever(e: Executor): Executor { e.(never := true) }

  datatype Kind = ExecutorKind | AllocatorKind | SlotKind | ImmediateKind

  datatype Value =
    | BoundExecutor(e: Executor)
    | BoundAllocator(a: nat)
    | BoundSlot(s: nat)
    | BoundImmediate(e: Executor)

  function KindOf(v: Value): Kind {
    match v
    case BoundExecutor(_) => ExecutorKind
    case BoundAllocator(_) => AllocatorKind
    case BoundSlot(_) => SlotKind
    case BoundImmediate(_) => ImmediateKind
  }

  /** A user's handler, with the associations its class declares by itself. */
  datatype Handler = Handler(
    id: nat, executor: Option<Executor>, allocator: Option<nat>, slot: Option<nat>,
    immediate: Option<Executor>)
  {
    function Own(k: Kind): Option<Value> {
      match k
      case ExecutorKind => if executor.Some? then Some(BoundExecutor(executor.value)) else None
      case AllocatorKind => if allocator.Some? then Some(BoundAllocator(allocator.value)) else None
      case SlotKind => if slot.Some? then Some(BoundSlot(slot.value)) else None
      case ImmediateKind => if immediate.Some? then Some(BoundImmediate(immediate.value)) else None
    }
  }

  datatype Nest =
    | Plain(handler: Handler)
    | Ref(target: Nest)
    | Bound(value: Value, target: Nest)

  predicate BindsType(n: Nest, cxxType: nat) {
    n.Bound? && n.value.BoundExecutor? && n.value.e.cxxType == cxxType
  }

  /** Construction of an executor_binder's target. A target that is itself an
      executor_binder of the same executor type uses the executor it is constructed with,
      and hands it on in the same way. */
  function WithExecutor(e: Executor, n: Nest): Nest
    decreases n
  {
    if BindsType(n, e.cxxType) then Bound(BoundExecutor(e), WithExecutor(e, n.target)) else n
  }

  /** The constructors of the four binders. */
  function Bind(v: Value, n: Nest): Nest {
    if v.BoundExecutor? then Bound(v, WithExecutor(v.e, n)) else Bound(v, n)
  }

  /** What the constructors can build: executor binders of one type that lie directly inside
      each other agree. */
  predicate WellBuilt(n: Nest) {
    match n
    case Plain(_) => true
    case Ref(t) => WellBuilt(t)
    case Bound(v, t) =>
      WellBuilt(t) && (v.BoundExecutor? && BindsType(t, v.e.cxxType) ==> t.value == v)
  }

  /** The binders of a nest, outermost first, and the handler they surround. */
  function Layers(n: Nest): seq<Value> {
    match n
    case Plain(_) => []
    case Ref(t) => Layers(t)
    case Bound(v, t) => [v] + Layers(t)
  }

  function Leaf(n: Nest): Handler {
    match n
    case Plain(h) => h
    case Ref(t) => Leaf(t)
    case Bound(_, t) => Leaf(t)
  }

  // ----- Associators -----

  /** What an associator answers for a type that declares nothing. */
  function Default(candidate: Value): Value {
    if candidate.BoundImmediate? then BoundImmediate(RequireNever(candidate.e)) else candidate
  }

  /** `associated_...<T, Candidate>::get(t, candidate)` for the kind of the candidate: T's own
      member, else the associator of its wrapper, else the candidate. */
  function Get(n: Nest, candidate: Value): Value {
    match n
    case Plain(h) =>
      var own := h.Own(KindOf(candidate));
      if own.Some? then own.value else Default(candidate)
    case Ref(t) => Get(t, candidate)
    case Bound(v, t) => if KindOf(v) == KindOf(candidate) then v else Get(t, candidate)
  }

  /** Position i holds the outermost binder of kind k. */
  ghost predicate Outermost(layers: seq<Value>, k: Kind, i: nat) {
    i < |layers| && KindOf(layers[i]) == k && forall j :: 0 <= j < i ==> KindOf(layers[j]) != k
  }

  ghost predicate NoBinder(layers: seq<Value>, k: Kind) {
    forall i :: 0 <= i < |layers| ==> KindOf(layers[i]) != k
  }

  /** Every lookup finds the outermost binder of its kind: binders of the other kinds and
      reference wrappers make no difference. */
  lemma {:induction false} LookupFindsOutermost(n: Nest, candidate: Value, i: nat)
    requires Outermost(Layers(n), KindOf(candidate), i)
    ensures Get(n, candidate) == Layers(n)[i]
    decreases n
  {
    if n.Ref? {
      LookupFindsOutermost(n.target, candidate, i);
    } else if i > 0 {
      assert Layers(n)[0] == n.value;
      assert forall j :: 0 <= j < |Layers(n.target)| ==> Layers(n.target)[j] == Layers(n)[j + 1];
      LookupFindsOutermost(n.target, candidate, i - 1);
    }
  }

  /** Without such a binder it finds what the innermost handler declares, or else the
      candidate, which an immediate executor is required never to block. */
  lemma {:induction false} LookupFallsThrough(n: Nest, candidate: Value)
    requires NoBinder(Layers(n), KindOf(candidate))
    ensures Get(n, candidate) == Get(Plain(Leaf(n)), candidate)
    ensures var own := Leaf(n).Own(KindOf(candidate));
            Get(n, candidate) == if own.Some? then own.value
                                 else if candidate.BoundImmediate?
                                 then BoundImmediate(Executor(candidate.e.cxxType, candidate.e.id, true))
                                 else candidate
    decreases n
  {
    match n
    case Plain(_) =>
    case Ref(t) => LookupFallsThrough(t, candidate);
    case Bound(v, t) =>
      assert Layers(n)[0] == v;
      assert forall j :: 0 <= j < |Layers(t)| ==> Layers(t)[j] == Layers(n)[j + 1];
      LookupFallsThrough(t, candidate);
  }

  /** What a handler declares is found for the kind it is declared for. */
  lemma DeclaredFound(h: Handler, e: Executor, a: nat)
    ensures h.executor.Some? ==> Get(Plain(h), BoundExecutor(e)) == BoundExecutor(h.executor.value)
    ensures h.allocator.Some? ==> Get(Plain(h), BoundAllocator(a)) == BoundAllocator(h.allocator.value)
    ensures h.slot.Some? ==> Get(Plain(h), BoundSlot(a)) == BoundSlot(h.slot.value)
    ensures h.immediate.Some? ==> Get(Plain(h), BoundImmediate(e)) == BoundImmediate(h.immediate.value)
    ensures h.executor.None? ==> Get(Plain(h), BoundExecutor(e)) == BoundExecutor(e)
    ensures h.allocator.None? ==> Get(Plain(h), BoundAllocator(a)) == BoundAllocator(a)
    ensures h.slot.None? ==> Get(Plain(h), BoundSlot(a)) == BoundSlot(a)
    ensures h.immediate.None? ==> Get(Plain(h), BoundImmediate(e)) == BoundImmediate(Executor(e.cxxType, e.id, true))
  {
  }

  /** Both are executors, or both allocators, slots or immediate executors. */
  predicate SameSort(v: Value, w: Value) {
    || (v.BoundExecutor? && w.BoundExecutor?)
    || (v.BoundAllocator? && w.BoundAllocator?)
    || (v.BoundSlot? && w.BoundSlot?)
    || (v.BoundImmediate? && w.BoundImmediate?)
  }

  /** A lookup answers with a value of the sort it was asked for. */
  lemma {:induction false} LookupKeepsSort(n: Nest, candidate: Value)
    ensures SameSort(Get(n, candidate), candidate)
    ensures forall v: Value :: KindOf(v) == KindOf(candidate) <==> SameSort(v, candidate)
    decreases n
  {
    if !n.Plain? {
      LookupKeepsSort(n.target, candidate);
    }
  }

  /** Handing an executor on changes no other association. */
  lemma {:induction false} WithExecutorLookup(e: Executor, n: Nest, candidate: Value)
    ensures KindOf(candidate) != ExecutorKind ==> Get(WithExecutor(e, n), candidate) == Get(n, candidate)
    decreases n
  {
    if BindsType(n, e.cxxType) {
      WithExecutorLookup(e, n.target, candidate);
    }
  }

  lemma BindLookup(v: Value, n: Nest, candidate: Value)
    ensures Get(Bind(v, n), candidate) == if KindOf(v) == KindOf(candidate) then v else Get(n, candidate)
  {
    if v.BoundExecutor? {
      WithExecutorLookup(v.e, n, candidate);
    }
  }

  /** What may lie around a nest: a binder or a reference wrapper. */
  datatype Layer = Binder(v: Value) | Reference

  /** n inside the layers, outermost first. */
  function Within(layers: seq<Layer>, n: Nest): Nest {
    if layers == [] then n
    else
      var inner := Within(layers[1..], n);
      if layers[0].Reference? then Ref(inner) else Bind(layers[0].v, inner)
  }

  /** Two neighbouring binders of different kinds may be swapped anywhere in a nest of binders
      and reference wrappers: no lookup can tell. */
  lemma {:induction false} SwapNeighbours(outer: seq<Layer>, v: Value, w: Value, n: Nest, candidate: Value)
    requires KindOf(v) != KindOf(w)
    ensures Get(Within(outer, Bind(v, Bind(w, n))), candidate)
            == Get(Within(outer, Bind(w, Bind(v, n))), candidate)
    decreases |outer|
  {
    if outer == [] {
      BindLookup(v, Bind(w, n), candidate);
      BindLookup(w, n, candidate);
      BindLookup(w, Bind(v, n), candidate);
      BindLookup(v, n, candidate);
    } else {
      SwapNeighbours(outer[1..], v, w, n, candidate);
      if outer[0].Binder? {
        BindLookup(outer[0].v, Within(outer[1..], Bind(v, Bind(w, n))), candidate);
        BindLookup(outer[0].v, Within(outer[1..], Bind(w, Bind(v, n))), candidate);
      }
    }
  }

  // ----- What the constructors build -----

  /** The layers of a nest, reference wrappers included. */
  function Peel(n: Nest): seq<Layer> {
    match n
    case Plain(_) => []
    case Ref(t) => [Reference] + Peel(t)
    case Bound(v, t) => [Binder(v)] + Peel(t)
  }

  lemma {:induction false} PeelDetermines(m: Nest, n: Nest)
    requires Peel(m) == Peel(n) && Leaf(m) == Leaf(n)
    ensures m == n
    decreases m
  {
    if !m.Plain? {
      assert Peel(m)[0] == Peel(n)[0] && Peel(m)[1..] == Peel(n)[1..];
      PeelDetermines(m.target, n.target);
    }
  }

  /** An executor binder for executors of this C++ type. */
  predicate OfType(l: Layer, cxxType: nat) {
    l.Binder? && l.v.BoundExecutor? && l.v.e.cxxType == cxxType
  }

  /** Layer i belongs to the executor binders of this type at the front. */
  ghost predicate AtFront(layers: seq<Layer>, cxxType: nat, i: nat)
    requires i < |layers|
  {
    forall j :: 0 <= j <= i ==> OfType(layers[j], cxxType)
  }

  lemma FrontTail(layers: seq<Layer>, cxxType: nat, i: nat)
    requires 0 < i < |layers|
    ensures AtFront(layers, cxxType, i) <==> OfType(layers[0], cxxType) && AtFront(layers[1..], cxxType, i - 1)
  {
    assert forall j :: 0 < j <= i ==> layers[j] == layers[1..][j - 1];
    if OfType(layers[0], cxxType) && AtFront(layers[1..], cxxType, i - 1) {
      forall j | 0 <= j <= i
        ensures OfType(layers[j], cxxType)
      {
        if j > 0 { assert OfType(layers[1..][j - 1], cxxType); }
      }
    }
    if AtFront(layers, cxxType, i) {
      forall j | 0 <= j <= i - 1
        ensures OfType(layers[1..][j], cxxType)
      {
        assert OfType(layers[j + 1], cxxType);
      }
    }
  }

  /** Handing an executor on, told layer by layer: the executor binders of its type at the
      front hold it, and everything from the first other layer on is as it was. */
  lemma {:induction false} WithExecutorLayers(e: Executor, n: Nest)
    ensures var p, q := Peel(n), Peel(WithExecutor(e, n));
            && |q| == |p| && Leaf(WithExecutor(e, n)) == Leaf(n)
            && forall i :: 0 <= i < |p| ==>
                 q[i] == if AtFront(p, e.cxxType, i) then Binder(BoundExecutor(e)) else p[i]
    decreases n
  {
    var p, q := Peel(n), Peel(WithExecutor(e, n));
    if n.Bound? && OfType(p[0], e.cxxType) {
      WithExecutorLayers(e, n.target);
      var t, u := Peel(n.target), Peel(WithExecutor(e, n.target));
      forall i | 0 <= i < |p|
        ensures q[i] == if AtFront(p, e.cxxType, i) then Binder(BoundExecutor(e)) else p[i]
      {
        if i > 0 {
          FrontTail(p, e.cxxType, i);
          assert p[1..] == t && q[i] == u[i - 1] && p[i] == t[i - 1];
        }
      }
    } else {
      assert p == [] || !OfType(p[0], e.cxxType);
    }
  }

  /** Binding, told layer by layer: a new outermost layer, the same handler, and for an executor
      the binders of its own type that lie directly within hold the new one. */
  lemma BindLayers(v: Value, n: Nest)
    ensures var p, q := Peel(n), Peel(Bind(v, n));
            && |q| == 1 + |p| && q[0] == Binder(v) && Leaf(Bind(v, n)) == Leaf(n)
            && forall i :: 0 <= i < |p| ==>
                 q[i + 1] == if v.BoundExecutor? && AtFront(p, v.e.cxxType, i) then Binder(v) else p[i]
  {
    if v.BoundExecutor? {
      WithExecutorLayers(v.e, n);
    }
    var inner := if v.BoundExecutor? then WithExecutor(v.e, n) else n;
    assert Peel(Bind(v, n)) == [Binder(v)] + Peel(inner);
    assert forall i :: 0 <= i < |Peel(inner)| ==> Peel(Bind(v, n))[i + 1] == Peel(inner)[i];
  }

  /** An executor bound around a binder for another type of executor leaves that one alone. */
  lemma OtherTypeKept(e: Executor, f: Executor, n: Nest)
    requires e.cxxType != f.cxxType
    ensures Bind(BoundExecutor(e), Bound(BoundExecutor(f), n))
            == Bound(BoundExecutor(e), Bound(BoundExecutor(f), n))
  {
  }

  /** Two executor binders for executors of one C++ type. */
  predicate SameType(l: Layer, m: Layer) {
    && l.Binder? && l.v.BoundExecutor? && m.Binder? && m.v.BoundExecutor?
    && l.v.e.cxxType == m.v.e.cxxType
  }

  /** Executor binders of one type that are neighbours among the layers agree. */
  ghost predicate Agreeing(layers: seq<Layer>) {
    forall i :: 0 <= i < |layers| - 1 && SameType(layers[i], layers[i + 1]) ==> layers[i] == layers[i + 1]
  }

  lemma AgreeingTail(layers: seq<Layer>)
    requires layers != []
    ensures Agreeing(layers) <==>
              && Agreeing(layers[1..])
              && (|layers| > 1 && SameType(layers[0], layers[1]) ==> layers[0] == layers[1])
  {
    var tail := layers[1..];
    assert forall i :: 0 < i < |layers| ==> layers[i] == tail[i - 1];
    if Agreeing(layers) {
      assert forall i :: 0 <= i < |tail| ==> tail[i] == layers[i + 1];
    }
  }

  lemma {:induction false} WellBuiltIff(n: Nest)
    ensures WellBuilt(n) <==> Agreeing(Peel(n))
    decreases n
  {
    if !n.Plain? {
      WellBuiltIff(n.target);
      AgreeingTail(Peel(n));
      assert Peel(n)[1..] == Peel(n.target);
    }
  }

  lemma {:induction false} WithExecutorBuilds(e: Executor, n: Nest)
    requires WellBuilt(n)
    ensures WellBuilt(WithExecutor(e, n))
    ensures BindsType(WithExecutor(e, n), e.cxxType) ==> WithExecutor(e, n).value == BoundExecutor(e)
    decreases n
  {
    if BindsType(n, e.cxxType) {
      WithExecutorBuilds(e, n.target);
    }
  }

  /** The executor binders of e's type at the front of n all hold e. */
  predicate AllHave(e: Executor, n: Nest) {
    BindsType(n, e.cxxType) ==> n.value == BoundExecutor(e) && AllHave(e, n.target)
  }

  lemma {:induction false} IdleIfAllHave(e: Executor, n: Nest)
    ensures WithExecutor(e, n) == n <==> AllHave(e, n)
    decreases n
  {
    if BindsType(n, e.cxxType) {
      IdleIfAllHave(e, n.target);
    }
  }

  /** Handing an executor on changes nothing exactly when the binders of its type at the front
      all hold it. */
  lemma WithExecutorIdleIff(e: Executor, n: Nest)
    ensures var p := Peel(n);
            WithExecutor(e, n) == n
            <==> forall i :: 0 <= i < |p| && AtFront(p, e.cxxType, i) ==> p[i] == Binder(BoundExecutor(e))
  {
    var p, q := Peel(n), Peel(WithExecutor(e, n));
    WithExecutorLayers(e, n);
    if p == q { PeelDetermines(WithExecutor(e, n), n); }
  }

  lemma {:induction false} WithExecutorTwice(e: Executor, n: Nest)
    ensures WithExecutor(e, WithExecutor(e, n)) == WithExecutor(e, n)
    decreases n
  {
    if BindsType(n, e.cxxType) {
      WithExecutorTwice(e, n.target);
    }
  }

  lemma {:induction false} WithinWellBuilt(layers: seq<Layer>, n: Nest)
    requires WellBuilt(n)
    ensures WellBuilt(Within(layers, n))
    decreases |layers|
  {
    if layers != [] {
      WithinWellBuilt(layers[1..], n);
      if layers[0].Binder? && layers[0].v.BoundExecutor? {
        WithExecutorBuilds(layers[0].v.e, Within(layers[1..], n));
      }
    }
  }

  /** Whatever is built around a nest whose neighbouring executor binders of one type agree is
      such a nest again. */
  lemma WithinBuilds(layers: seq<Layer>, n: Nest)
    requires Agreeing(Peel(n))
    ensures Agreeing(Peel(Within(layers, n)))
  {
    WellBuiltIff(n);
    WithinWellBuilt(layers, n);
    WellBuiltIff(Within(layers, n));
  }

  lemma {:induction false} BuiltAllHave(e: Executor, n: Nest)
    requires WellBuilt(n) && (BindsType(n, e.cxxType) ==> n.value == BoundExecutor(e))
    ensures AllHave(e, n)
    decreases n
  {
    if BindsType(n, e.cxxType) {
      BuiltAllHave(e, n.target);
    }
  }

  lemma {:induction false} BuildsItself(n: Nest)
    requires WellBuilt(n)
    ensures Within(Peel(n), Plain(Leaf(n))) == n
    decreases n
  {
    if !n.Plain? {
      BuildsItself(n.target);
      assert Peel(n)[1..] == Peel(n.target);
      if n.Bound? && n.value.BoundExecutor? {
        BuiltAllHave(n.value.e, n.target);
        IdleIfAllHave(n.value.e, n.target);
      }
    }
  }

  /** What the constructors can build is exactly the nests whose neighbouring executor binders
      of one type agree: such a nest is built by binding its own layers around its handler,
      and no other nest comes out of any construction. */
  lemma BuildableIff(n: Nest)
    ensures Agreeing(Peel(n)) ==> Within(Peel(n), Plain(Leaf(n))) == n
    ensures (exists layers, h :: Within(layers, Plain(h)) == n) <==> Agreeing(Peel(n))
  {
    WellBuiltIff(n);
    if layers, h :| Within(layers, Plain(h)) == n {
      WithinBuilds(layers, Plain(h));
    }
    if WellBuilt(n) {
      BuildsItself(n);
    }
  }
}
