/**
Overload resolution: how a list of argument types is matched against one function signature,
how a group of functions chooses the overload to call, and how arguments are cast to it.
*/
module Overloads {
  import opened Types

  /** An argument type: a value of element type `ty`, or a pointer to another type. */
  datatype ArgTy = ByValue(ty: Ty) | Pointer(pointee: ArgTy)

  datatype Parameter = Parameter(ty: ArgTy, readOnly: bool)

  datatype Signature = Signature(symbol: string, params: seq<Parameter>, result: Ty)

  datatype SignatureMatch = NoMatch | SizeMatch | Implicit | Explicit {
    function Grade(): nat {
      match this
      case NoMatch => 0
      case SizeMatch => 1
      case Implicit => 2
      case Explicit => 3
    }
  }

  const CHAR_POINTER := Pointer(ByValue(Int8))

  predicate IsScalarValue(t: ArgTy) {
    t.ByValue? && t.ty.IsScalar()
  }

  /** The element type under any number of pointers. */
  function ElementType(t: ArgTy): Ty {
    match t
    case ByValue(ty) => ty
    case Pointer(p) => ElementType(p)
  }

  /** Whether a value of type `from` can be cast to type `to`. */
  predicate IsValidCast(from: ArgTy, to: ArgTy)
    decreases if from.ByValue? then from.ty else Void
  {
    from.ByValue? && to.ByValue? &&
    ((from.ty.IsScalar() && to.ty.IsScalar()) ||
     (from.ty.Vec? && to.ty.Vec? && from.ty.size == to.ty.size &&
      IsValidCast(ByValue(from.ty.elem), ByValue(to.ty.elem))))
  }

  /** Whether one argument can be passed, perhaps after a cast, to one parameter. */
  predicate Accepts(p: Parameter, from: ArgTy) {
    from == p.ty ||
    (!(p.ty.Pointer? && !p.readOnly) &&
     var strip := from.Pointer? && p.ty.Pointer?;
     var f := if strip then from.pointee else from;
     var t := if strip then p.ty.pointee else p.ty;
     (f == ByValue(Str) && t == ByValue(Int8)) || IsValidCast(f, t))
  }

  function ParamTypes(sig: Signature): seq<ArgTy> {
    seq(|sig.params|, i requires 0 <= i < |sig.params| => sig.params[i].ty)
  }

  /** How well a signature fits a list of argument types. */
  function Matches(sig: Signature, inputs: seq<ArgTy>): SignatureMatch {
    if |inputs| != |sig.params| then NoMatch
    else if inputs == ParamTypes(sig) then Explicit
    else if forall i | 0 <= i < |inputs| :: Accepts(sig.params[i], inputs[i]) then Implicit
    else SizeMatch
  }

  /** The result of resolving a call: the chosen overload, if any, and the best match kind seen. */
  datatype Resolution = Resolution(target: Option<Signature>, kind: SignatureMatch)

  /** The overload a group chooses: the first explicit match, otherwise the first implicit one. */
  function Resolve(group: seq<Signature>, inputs: seq<ArgTy>): (r: Resolution) {
    ResolveFrom(group, inputs, Resolution(None, NoMatch))
  }

  function ResolveFrom(group: seq<Signature>, inputs: seq<ArgTy>, best: Resolution): (r: Resolution) {
    if group == [] then best
    else
      var m := Matches(group[0], inputs);
      var kind := if best.kind.Grade() < m.Grade() then m else best.kind;
      if m == Explicit then Resolution(Some(group[0]), Explicit)
      else if m == Implicit && best.target.None? then
        ResolveFrom(group[1..], inputs, Resolution(Some(group[0]), kind))
      else ResolveFrom(group[1..], inputs, Resolution(best.target, kind))
  }

  // ---------------------------------------------------------------------------------------
  // The loops of the source

  /** `Function::match`. */
  method MatchSignature(sig: Signature, inputs: seq<ArgTy>) returns (m: SignatureMatch)
    ensures m == Matches(sig, inputs)
  {
    if |inputs| != |sig.params| { return NoMatch; }
    if |inputs| == 0 { return Explicit; }
    var signature := ParamTypes(sig);
    if inputs == signature { return Explicit; }
    var i := 0;
    while i < |signature|
      invariant i <= |signature|
      invariant forall j | 0 <= j < i :: Accepts(sig.params[j], inputs[j])
    {
      var from, to := inputs[i], signature[i];
      if from != to {
        if to.Pointer? && !sig.params[i].readOnly { return SizeMatch; }
        if from.Pointer? && to.Pointer? {
          from, to := from.pointee, to.pointee;
        }
        if !(from == ByValue(Str) && to == ByValue(Int8)) && !IsValidCast(from, to) { return SizeMatch; }
      }
      i := i + 1;
    }
    m := Implicit;
  }

  /** `FunctionGroup::match`: returns at the first explicit match, else remembers the first implicit one. */
  method MatchGroup(group: seq<Signature>, inputs: seq<ArgTy>) returns (r: Resolution)
    ensures r == Resolve(group, inputs)
  {
    r := Resolution(None, NoMatch);
    var i := 0;
    while i < |group|
      invariant i <= |group|
      invariant ResolveFrom(group[i..], inputs, r) == Resolve(group, inputs)
    {
      var m := MatchSignature(group[i], inputs);
      if r.kind.Grade() < m.Grade() { r := r.(kind := m); }
      if m == Explicit {
        return r.(target := Some(group[i]));
      } else if m == Implicit {
        if r.target.None? { r := r.(target := Some(group[i])); }
      }
      assert group[i..][1..] == group[i + 1..];
      i := i + 1;
    }
  }

  // ---------------------------------------------------------------------------------------
  // Which overload is chosen

  /** `sig` is the first among n candidates that fits the inputs with this kind of match. */
  predicate IsFirst(group: seq<Signature>, n: nat, inputs: seq<ArgTy>, kind: SignatureMatch, sig: Signature)
    requires n <= |group|
  {
    exists i | 0 <= i < n ::
      group[i] == sig && Matches(sig, inputs) == kind &&
      forall j | 0 <= j < i :: Matches(group[j], inputs) != kind
  }

  predicate Offers(group: seq<Signature>, n: nat, inputs: seq<ArgTy>, kind: SignatureMatch)
    requires n <= |group|
  {
    exists i | 0 <= i < n :: Matches(group[i], inputs) == kind
  }

  /**
  The outcome for the first n candidates: an explicit one wins over every implicit one, among
  candidates of a kind the first wins, and the kind that is reported is that of the best candidate,
  which is the chosen one if any is.
  */
  predicate IsBest(group: seq<Signature>, n: nat, inputs: seq<ArgTy>, r: Resolution)
    requires n <= |group|
  {
    if Offers(group, n, inputs, Explicit) then
      r.kind == Explicit && r.target.Some? && IsFirst(group, n, inputs, Explicit, r.target.value)
    else if Offers(group, n, inputs, Implicit) then
      r.kind == Implicit && r.target.Some? && IsFirst(group, n, inputs, Implicit, r.target.value)
    else r.target.None? && r.kind == if Offers(group, n, inputs, SizeMatch) then SizeMatch else NoMatch
  }

  lemma BestFirst(group: seq<Signature>, inputs: seq<ArgTy>)
    ensures IsBest(group, |group|, inputs, Resolve(group, inputs))
  {
    assert group[0..] == group;
    ResolveOn(group, 0, inputs, Resolution(None, NoMatch));
  }

  lemma {:induction false} ResolveOn(group: seq<Signature>, i: nat, inputs: seq<ArgTy>, best: Resolution)
    requires i <= |group| && IsBest(group, i, inputs, best) && best.kind != Explicit
    ensures IsBest(group, |group|, inputs, ResolveFrom(group[i..], inputs, best))
    decreases |group| - i
  {
    hide Matches, IsFirst;
    if i < |group| {
      var m := Matches(group[i], inputs);
      if m == Explicit {
        OneFirst(group, i, |group|, inputs, Explicit);
      } else {
        var kind := if best.kind.Grade() < m.Grade() then m else best.kind;
        var target := if m == Implicit && best.target.None? then Some(group[i]) else best.target;
        if best.target.Some? {
          StaysFirst(group, i, inputs, best.target.value);
        } else if m == Implicit {
          OneFirst(group, i, i + 1, inputs, Implicit);
        }
        ResolveOn(group, i + 1, inputs, Resolution(target, kind));
        assert group[i..][1..] == group[i + 1..];
      }
    }
  }

  lemma OneFirst(group: seq<Signature>, i: nat, n: nat, inputs: seq<ArgTy>, kind: SignatureMatch)
    requires i < n <= |group| && Matches(group[i], inputs) == kind && !Offers(group, i, inputs, kind)
    ensures IsFirst(group, n, inputs, kind, group[i])
  {}

  lemma StaysFirst(group: seq<Signature>, i: nat, inputs: seq<ArgTy>, sig: Signature)
    requires i < |group| && IsFirst(group, i, inputs, Implicit, sig)
    ensures IsFirst(group, i + 1, inputs, Implicit, sig)
  {}

  // ---------------------------------------------------------------------------------------
  // Casting arguments

  /** The element type of the array under any number of pointers. */
  function ArrayElement(t: ArgTy): Option<Ty> {
    if ElementType(t).Vec? then Some(ElementType(t).elem) else None
  }

  /** The type of an argument after it was cast to a parameter type. */
  function CastType(from: ArgTy, to: ArgTy): ArgTy {
    if IsScalarValue(from) then
      if to == ByValue(Bool) then ByValue(Bool) else if IsScalarValue(to) then to else from
    else if from.Pointer? && from.pointee.ByValue? && from.pointee.ty.Vec? then
      if ArrayElement(to).Some? then Pointer(ByValue(Vec(ArrayElement(to).value, from.pointee.ty.size))) else from
    else if to == CHAR_POINTER && from == Pointer(ByValue(Str)) then CHAR_POINTER
    else from
  }

  /** `Function::cast`: as many leading arguments as there are types are cast in place. */
  method Cast(args: array<ArgTy>, types: seq<ArgTy>)
    modifies args
    ensures forall i | 0 <= i < args.Length ::
              args[i] == if i < |types| then CastType(old(args[i]), types[i]) else old(args[i])
  {
    var i := 0;
    while i < args.Length
      invariant i <= args.Length
      invariant forall j | 0 <= j < i ::
        args[j] == if j < |types| then CastType(old(args[j]), types[j]) else old(args[j])
      invariant forall j | i <= j < args.Length :: args[j] == old(args[j])
    {
      if i >= |types| { break; }
      args[i] := CastType(args[i], types[i]);
      i := i + 1;
    }
  }

  /** The types of the arguments that a resolved call passes, as `FunctionGroup::execute` has them cast. */
  function PassedTypes(r: Resolution, inputs: seq<ArgTy>): seq<ArgTy>
    requires r.target.Some? && |r.target.value.params| == |inputs|
  {
    if r.kind == Implicit then
      seq(|inputs|, i requires 0 <= i < |inputs| => CastType(inputs[i], r.target.value.params[i].ty))
    else inputs
  }

  /**
  An argument type that a cast cannot turn into another one that it is accepted for: a pointer to a
  single scalar, and arrays and strings passed by value.
  */
  predicate Inert(t: ArgTy) {
    (t.Pointer? && IsScalarValue(t.pointee)) || (t.ByValue? && !t.ty.IsScalar())
  }

  /** A call that resolves has as many parameters as arguments, and its target fits with its kind. */
  lemma ResolvedFits(group: seq<Signature>, inputs: seq<ArgTy>)
    ensures var r := Resolve(group, inputs);
            r.target.Some? ==> |r.target.value.params| == |inputs| && r.kind == Matches(r.target.value, inputs) &&
                               r.kind in {Implicit, Explicit}
  {
    BestFirst(group, inputs);
  }

  /**
  The arguments of a resolved call have exactly the types of the signature, unless the match was
  implicit and an inert argument differs from its parameter.
  */
  lemma CallsAreWellTyped(group: seq<Signature>, inputs: seq<ArgTy>)
    requires Resolve(group, inputs).target.Some?
    ensures var r := Resolve(group, inputs);
            |r.target.value.params| == |inputs| &&
            (PassedTypes(r, inputs) == ParamTypes(r.target.value) <==>
             forall i | 0 <= i < |inputs| :: Inert(inputs[i]) ==> inputs[i] == r.target.value.params[i].ty)
  {
    ResolvedFits(group, inputs);
    var r := Resolve(group, inputs);
    var sig := r.target.value;
    if r.kind == Implicit {
      forall i | 0 <= i < |inputs|
        ensures PassedTypes(r, inputs)[i] == ParamTypes(sig)[i] <==>
                  (Inert(inputs[i]) ==> inputs[i] == sig.params[i].ty)
      {
        assert Accepts(sig.params[i], inputs[i]);
        CastReaches(sig.params[i], inputs[i]);
      }
    }
  }

  /** Cast between accepted types, arrays of scalars included, arrives unless the argument is inert. */
  lemma CastReaches(p: Parameter, from: ArgTy)
    requires Accepts(p, from)
    ensures CastType(from, p.ty) == p.ty <==> (Inert(from) ==> from == p.ty)
  {
    if from.Pointer? && p.ty.Pointer? {
      assert ElementType(p.ty) == ElementType(p.ty.pointee);
      assert from != p.ty && from.pointee != ByValue(Str) ==> IsValidCast(from.pointee, p.ty.pointee);
    }
  }

  /** The argument types that the code generator passes: loaded scalars, and pointers to arrays and strings. */
  predicate IsGenerated(t: ArgTy) {
    IsScalarValue(t) ||
    (t.Pointer? && t.pointee.ByValue? && (t.pointee.ty == Str || (t.pointee.ty.Vec? && t.pointee.ty.elem.IsScalar())))
  }

  /** The calls of a user program therefore always type-check. */
  lemma GeneratedCallsAreWellTyped(group: seq<Signature>, inputs: seq<ArgTy>)
    requires Resolve(group, inputs).target.Some?
    requires forall t | t in inputs :: IsGenerated(t)
    ensures var r := Resolve(group, inputs);
            |r.target.value.params| == |inputs| && PassedTypes(r, inputs) == ParamTypes(r.target.value)
  {
    CallsAreWellTyped(group, inputs);
    forall i | 0 <= i < |inputs| ensures !Inert(inputs[i]) {
      assert inputs[i] in inputs;
    }
  }

  /** A pointer to a float is accepted for a read-only pointer to a double, and passed as it is. */
  lemma InertArgumentIsPassedUncast()
    ensures var sig := Signature("f", [Parameter(Pointer(ByValue(Double)), true)], Void);
            var inputs := [Pointer(ByValue(Float))];
            var r := Resolve([sig], inputs);
            r == Resolution(Some(sig), Implicit) && |sig.params| == |inputs| &&
            PassedTypes(r, inputs) != ParamTypes(sig)
  {
    var sig := Signature("f", [Parameter(Pointer(ByValue(Double)), true)], Void);
    var inputs := [Pointer(ByValue(Float))];
    assert ParamTypes(sig)[0] == Pointer(ByValue(Double));
    assert Accepts(sig.params[0], inputs[0]);
    assert Matches(sig, inputs) == Implicit;
    assert [sig][1..] == [];
    var r := Resolve([sig], inputs);
    assert ResolveFrom([], inputs, Resolution(Some(sig), Implicit)) == Resolution(Some(sig), Implicit);
    assert r == Resolution(Some(sig), Implicit);
    assert PassedTypes(r, inputs)[0] == Pointer(ByValue(Float));
  }
}
