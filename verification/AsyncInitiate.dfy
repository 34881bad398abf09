/**
 `async_initiate` on a token made of binders: asio/async_result.hpp and the `initiate` and
 `init_wrapper` members of the four binders. Each binder is peeled off the token and put
 aside as an argument; the wrapped initiation puts it back around the handler.
 */
module AsyncInitiate {
  import opened BinderNest
  import opened Signatures

  datatype Arg = User(id: nat) | Peeled(v: Value)

  /** The caller's initiation, or an init_wrapper around another one. */
  datatype Initiation = Original(id: nat) | InitWrapper(kind: Kind, inner: Initiation)

  /** One call of the caller's initiation. */
  datatype Invocation = Invocation(id: nat, handler: Nest, args: seq<Arg>)

  /** The argument lists an initiation accepts: one peeled value for each wrapper. */
  predicate Accepts(i: Initiation, args: seq<Arg>) {
    match i
    case Original(_) => true
    case InitWrapper(k, inner) =>
      args != [] && args[0].Peeled? && KindOf(args[0].v) == k && Accepts(inner, args[1..])
  }

  /** Calling an initiation with a handler and arguments. */
  function Launch(i: Initiation, handler: Nest, args: seq<Arg>): seq<Invocation>
    requires Accepts(i, args)
    decreases i
  {
    match i
    case Original(id) => [Invocation(id, handler, args)]
    case InitWrapper(_, inner) => Launch(inner, Bind(args[0].v, handler), args[1..])
  }

  /** A binder has its own `async_result` for a single signature. Any other token, and any
      token with several signatures, goes to the primary template, whose base passes the
      token to the initiation as the handler. */
  function Initiate(sigs: seq<Signature>, i: Initiation, token: Nest, args: seq<Arg>): seq<Invocation>
    requires Accepts(i, args)
    decreases token
  {
    if token.Bound? && |sigs| == 1 then
      Initiate(sigs, InitWrapper(KindOf(token.value), i), token.target, [Peeled(token.value)] + args)
    else
      Launch(i, token, args)
  }

  /** The token with its binders constructed anew, from the inside out. */
  function Rewrapped(token: Nest): Nest {
    if token.Bound? then Bind(token.value, Rewrapped(token.target)) else token
  }

  lemma {:induction false} PeelThenRewrap(sigs: seq<Signature>, i: Initiation, token: Nest, args: seq<Arg>)
    requires Accepts(i, args) && |sigs| == 1
    ensures Initiate(sigs, i, token, args) == Launch(i, Rewrapped(token), args)
    decreases token
  {
    if token.Bound? {
      var w, more := InitWrapper(KindOf(token.value), i), [Peeled(token.value)] + args;
      assert more[1..] == args;
      PeelThenRewrap(sigs, w, token.target, more);
    }
  }

  /** With several signatures nothing is peeled: whatever the token, it is the handler. */
  lemma SeveralSignatures(sigs: seq<Signature>, id: nat, token: Nest, args: seq<Arg>)
    requires |sigs| != 1
    ensures Initiate(sigs, Original(id), token, args) == [Invocation(id, token, args)]
  {
  }

  /** The binders that `initiate` peels, down to the first thing that is not a binder, are
      as the constructors build them. */
  predicate SpineBuilt(n: Nest) {
    n.Bound? ==>
      SpineBuilt(n.target)
      && (n.value.BoundExecutor? && BindsType(n.target, n.value.e.cxxType) ==> n.target.value == n.value)
  }

  lemma {:induction false} SpineAllHave(e: Executor, n: Nest)
    requires SpineBuilt(n) && (BindsType(n, e.cxxType) ==> n.value == BoundExecutor(e))
    ensures AllHave(e, n)
    decreases n
  {
    if BindsType(n, e.cxxType) {
      SpineAllHave(e, n.target);
    }
  }

  /** If handing e on to the rewrapped nest gives back the nest, rewrapping had changed nothing. */
  lemma {:induction false} SpreadOnly(e: Executor, n: Nest)
    requires WithExecutor(e, Rewrapped(n)) == n
    ensures Rewrapped(n) == n
    decreases n
  {
    if BindsType(n, e.cxxType) {
      assert n.value == BoundExecutor(e);
      WithExecutorTwice(e, Rewrapped(n.target));
      SpreadOnly(e, n.target);
    }
  }

  lemma {:induction false} RewrappedIfBuilt(token: Nest)
    ensures Rewrapped(token) == token <==> SpineBuilt(token)
    decreases token
  {
    if token.Bound? {
      RewrappedIfBuilt(token.target);
      if token.value.BoundExecutor? {
        var e := token.value.e;
        if Rewrapped(token.target) == token.target {
          IdleIfAllHave(e, token.target);
          if BindsType(token.target, e.cxxType) ==> token.target.value == token.value {
            SpineAllHave(e, token.target);
          }
        } else if Rewrapped(token) == token {
          SpreadOnly(e, token.target);
        }
      }
    }
  }

  /** The layers down to the first reference wrapper or handler. */
  function Spine(n: Nest): seq<Layer> {
    if n.Bound? then [Binder(n.value)] + Spine(n.target) else []
  }

  lemma {:induction false} SpineBuiltIff(n: Nest)
    ensures SpineBuilt(n) <==> Agreeing(Spine(n))
    decreases n
  {
    if n.Bound? {
      SpineBuiltIff(n.target);
      AgreeingTail(Spine(n));
      assert Spine(n)[1..] == Spine(n.target);
    }
  }

  /** Peeling and rewrapping is the identity exactly on nests whose neighbouring executor
      binders of one type agree, down to the first reference wrapper or handler; otherwise the
      outer executor spreads inwards. */
  lemma RewrappedIff(token: Nest)
    ensures Rewrapped(token) == token <==> Agreeing(Spine(token))
  {
    RewrappedIfBuilt(token);
    SpineBuiltIff(token);
  }

  lemma {:induction false} WellBuiltSpine(n: Nest)
    requires WellBuilt(n)
    ensures SpineBuilt(n)
    decreases n
  {
    if n.Bound? {
      WellBuiltSpine(n.target);
    }
  }

  /** Whatever the depth of the token and whatever the signatures: the caller's initiation
      runs exactly once, with its own arguments unchanged, and for a token that bind functions
      and reference wrappers built, the handler it gets is the token itself: the same layers
      with the same values in the same order around the same handler. */
  lemma InitiateDeliversToken(sigs: seq<Signature>, id: nat, layers: seq<Layer>, handler: Handler, args: seq<Arg>)
    ensures var token := Within(layers, Plain(handler));
            Initiate(sigs, Original(id), token, args) == [Invocation(id, token, args)]
  {
    var token := Within(layers, Plain(handler));
    WithinWellBuilt(layers, Plain(handler));
    if |sigs| == 1 {
      PeelThenRewrap(sigs, Original(id), token, args);
      WellBuiltSpine(token);
      RewrappedIfBuilt(token);
    }
  }

  lemma {:induction false} RewrappedLookup(token: Nest, candidate: Value)
    ensures Get(Rewrapped(token), candidate) == Get(token, candidate)
    decreases token
  {
    if token.Bound? {
      RewrappedLookup(token.target, candidate);
      BindLookup(token.value, Rewrapped(token.target), candidate);
    }
  }

  /** Every association looked up on the delivered handler is the one of the token, even for
      a nest that no constructor would build. */
  lemma InitiateKeepsAssociations(sigs: seq<Signature>, id: nat, token: Nest, args: seq<Arg>, candidate: Value)
    ensures var calls := Initiate(sigs, Original(id), token, args);
            && |calls| == 1 && calls[0].id == id && calls[0].args == args
            && Get(calls[0].handler, candidate) == Get(token, candidate)
  {
    if |sigs| == 1 {
      PeelThenRewrap(sigs, Original(id), token, args);
      RewrappedLookup(token, candidate);
    }
  }
}
