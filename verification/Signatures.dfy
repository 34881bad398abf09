/**
 Completion signatures and the base class that the primary `async_result` of
 asio/async_result.hpp selects for them.
 */
module Signatures {

  datatype RefQualifier = Unqualified | Lvalue | Rvalue

  /** R(Args...) with its qualifiers; `shape` stands for R and Args. */
  datatype Signature = Signature(shape: nat, ref: RefQualifier, isNoexcept: bool)

  function AnyLvalue(sigs: seq<Signature>): (b: bool)
    ensures b <==> exists i :: 0 <= i < |sigs| && sigs[i].ref.Lvalue?
  {
    if sigs == [] then false
    else if |sigs| == 1 then sigs[0].ref.Lvalue?
    else sigs[0].ref.Lvalue? || AnyLvalue(sigs[1..])
  }

  function AnyRvalue(sigs: seq<Signature>): (b: bool)
    ensures b <==> exists i :: 0 <= i < |sigs| && sigs[i].ref.Rvalue?
  {
    if sigs == [] then false
    else if |sigs| == 1 then sigs[0].ref.Rvalue?
    else sigs[0].ref.Rvalue? || AnyRvalue(sigs[1..])
  }

  function Simple(s: Signature): Signature { s.(ref := Unqualified, isNoexcept := false) }

  function AllSimple(sigs: seq<Signature>): (r: seq<Signature>)
    ensures |r| == |sigs| && forall i :: 0 <= i < |r| ==> r[i] == Simple(sigs[i])
  {
    seq(|sigs|, i requires 0 <= i < |sigs| => Simple(sigs[i]))
  }

  predicate UsesHandlerBase(sigs: seq<Signature>) { AnyLvalue(sigs) || !AnyRvalue(sigs) }

  /** The signatures of the completion_handler_async_result at the end of the base class
      chain, and the number of times the chain stripped the qualifiers on the way. */
  datatype Selection = Selection(sigs: seq<Signature>, strips: nat)

  function Select(sigs: seq<Signature>): Selection
    decreases AnyRvalue(sigs)
  {
    if UsesHandlerBase(sigs) then Selection(sigs, 0)
    else
      var s := Select(AllSimple(sigs));
      s.(strips := s.strips + 1)
  }

  /** The chain strips at most once. It ends on the list itself exactly when some signature
      is lvalue-qualified or none is rvalue-qualified. Otherwise it ends on the list of the same
      return and argument types with all qualifiers and noexcept gone. */
  lemma SelectionMeaning(sigs: seq<Signature>)
    ensures var keep := (exists i :: 0 <= i < |sigs| && sigs[i].ref.Lvalue?)
                        || (forall i :: 0 <= i < |sigs| ==> !sigs[i].ref.Rvalue?);
            var r := Select(sigs);
            && (keep ==> r == Selection(sigs, 0))
            && (!keep ==> r.strips == 1 && |r.sigs| == |sigs|
                          && forall i :: 0 <= i < |sigs| ==> r.sigs[i] == Signature(sigs[i].shape, Unqualified, false))
  {
    if !UsesHandlerBase(sigs) {
      assert UsesHandlerBase(AllSimple(sigs));
    }
  }
}
