/**
Which arguments a signature takes, argument by argument and without the recursive test of the code.
*/
module Acceptance {
  import opened Types
  import opened Overloads
  import opened Operators

  /** The sizes of nested arrays, outermost first. */
  function Sizes(t: Ty): seq<nat> {
    match t
    case Vec(e, n) => [n] + Sizes(e)
    case _ => []
  }

  function Innermost(t: Ty): Ty {
    match t
    case Vec(e, _) => Innermost(e)
    case _ => t
  }

  /** Any scalar goes for any scalar, an array of scalars for one of the same sizes, and a string for a char. */
  predicate GoesFor(a: Ty, b: Ty) {
    (Sizes(a) == Sizes(b) && IsNumber(Innermost(a)) && IsNumber(Innermost(b))) || (a == Str && b == Int8)
  }

  /** An argument that differs from its parameter: by value for a value, or behind a pointer for a pointer that the
      function does not write through. Only one pointer is looked through. */
  predicate GoesAs(p: Parameter, from: ArgTy) {
    match (from, p.ty)
    case (ByValue(a), ByValue(b)) => GoesFor(a, b)
    case (Pointer(ByValue(a)), Pointer(ByValue(b))) => p.readOnly && GoesFor(a, b)
    case _ => false
  }

  lemma {:induction false} ValidCastIs(a: Ty, b: Ty)
    ensures IsValidCast(ByValue(a), ByValue(b)) <==>
              Sizes(a) == Sizes(b) && IsNumber(Innermost(a)) && IsNumber(Innermost(b))
    decreases a
  {
    if a.Vec? && b.Vec? {
      ValidCastIs(a.elem, b.elem);
      assert Sizes(a)[1..] == Sizes(a.elem) && Sizes(b)[1..] == Sizes(b.elem);
      assert Sizes(a)[0] == a.size && Sizes(b)[0] == b.size;
    }
  }

  lemma AcceptsIs(p: Parameter, from: ArgTy)
    requires from != p.ty
    ensures Accepts(p, from) <==> GoesAs(p, from)
  {
    hide IsNumber;
    if from.ByValue? && p.ty.ByValue? {
      ValidCastIs(from.ty, p.ty.ty);
    } else if from.Pointer? && p.ty.Pointer? && from.pointee.ByValue? && p.ty.pointee.ByValue? {
      ValidCastIs(from.pointee.ty, p.ty.pointee.ty);
    }
  }

  ghost predicate Differs(sig: Signature, inputs: seq<ArgTy>) {
    exists i | 0 <= i < |sig.params| && i < |inputs| :: inputs[i] != sig.params[i].ty
  }

  /** The exact conditions of the four kinds of match. */
  lemma MatchesExactly(sig: Signature, inputs: seq<ArgTy>)
    ensures Matches(sig, inputs) == NoMatch <==> |inputs| != |sig.params|
    ensures Matches(sig, inputs) == Explicit <==> |inputs| == |sig.params| && !Differs(sig, inputs)
    ensures Matches(sig, inputs) == Implicit <==>
              |inputs| == |sig.params| && Differs(sig, inputs) &&
              forall i | 0 <= i < |inputs| :: inputs[i] != sig.params[i].ty ==> GoesAs(sig.params[i], inputs[i])
  {
    hide Accepts, GoesAs;
    if |inputs| == |sig.params| {
      assert inputs == ParamTypes(sig) <==> !Differs(sig, inputs);
      forall i | 0 <= i < |inputs|
        ensures Accepts(sig.params[i], inputs[i]) <==>
                  inputs[i] == sig.params[i].ty || GoesAs(sig.params[i], inputs[i])
      {
        if inputs[i] != sig.params[i].ty { AcceptsIs(sig.params[i], inputs[i]); } else { AcceptsSame(sig.params[i]); }
      }
    }
  }

  lemma AcceptsSame(p: Parameter)
    ensures Accepts(p, p.ty)
  {
  }

  ghost predicate AllNumbers(ts: seq<ArgTy>) {
    forall t | t in ts :: t.ByValue? && IsNumber(t.ty)
  }

  /** A group with an overload of n scalars resolves for any n scalars. */
  lemma ScalarsResolve(group: seq<Signature>, inputs: seq<ArgTy>, sig: Signature)
    requires sig in group && |sig.params| == |inputs| && AllNumbers(ParamTypes(sig)) && AllNumbers(inputs)
    ensures Resolve(group, inputs).target.Some?
  {
    hide Matches;
    MatchesExactly(sig, inputs);
    forall i | 0 <= i < |inputs| ensures GoesAs(sig.params[i], inputs[i]) {
      assert inputs[i] in inputs;
      assert ParamTypes(sig)[i] in ParamTypes(sig);
    }
    BestFirst(group, inputs);
    var i :| 0 <= i < |group| && group[i] == sig;
    assert Matches(group[i], inputs) in {Explicit, Implicit};
  }

  /** A group resolves exactly when one of its signatures takes the arguments. */
  lemma ResolvesExactly(group: seq<Signature>, inputs: seq<ArgTy>)
    ensures Resolve(group, inputs).target.Some? <==>
              exists i :: 0 <= i < |group| && Takes(group[i], inputs)
  {
    hide Matches, GoesAs;
    forall i | 0 <= i < |group| ensures Takes(group[i], inputs) <==> Matches(group[i], inputs) in {Explicit, Implicit} {
      MatchesExactly(group[i], inputs);
    }
    BestFirst(group, inputs);
  }

  predicate Takes(sig: Signature, inputs: seq<ArgTy>) {
    |inputs| == |sig.params| &&
    forall i | 0 <= i < |inputs| :: inputs[i] == sig.params[i].ty || GoesAs(sig.params[i], inputs[i])
  }
}
