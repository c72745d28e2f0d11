/**
What expressions mean, written out: the type and the numbers of every operator, the cells an assignment
or a call leaves behind, and the cell of a matrix entry. Nothing here relies on the rules that generation
and semantics share.
*/
module Meanings {
  import opened Types
  import opened Ast
  import opened Overloads
  import opened Semantics
  import opened Operators

  // ---------------------------------------------------------------------------------------
  // Typed expressions have numbers

  /** Lvalues are addresses, scalars numbers, and new arrays as long as their type says. */
  predicate Shaped(v: Value, s: Static) {
    s.Typed? ==>
      if s.ptr then v.Ptr?
      else if IsList(s.ty) then !v.Num? && (v.Arr? ==> |v.ns| == s.ty.size)
      else v.Num?
  }

  /** A typed expression stands for numbers, whatever has happened to memory since. */
  lemma ShapedAmounts(st: State, v: Value, s: Static) returns (xs: seq<int>)
    requires s.Typed? && Shaped(v, s)
    ensures Amounts(st, v, s.ty, xs)
  {
    if IsNumber(s.ty) {
      xs := [Read(st, v)];
    } else if IsList(s.ty) {
      xs := if v.Arr? then v.ns else seq(s.ty.size, i requires 0 <= i => Get(st.mem, Address(v.a.slot, i)));
    } else {
      xs := [];
    }
  }

  lemma BinaryShaped(ops: Ops, op: BinOp, a: Ty, u: Value, b: Ty, v: Value, st: State)
    ensures Shaped(BinaryResult(ops, op, a, u, b, v, st), TypeOfBinary(op, a, b))
  {
    hide Promotion, PromotedValue, Rvalue, TypeOfOperator, OperatorResult;
    var a1, b1 := Promotion(a, b), Promotion(b, a);
    OperatorShaped(ops, op, a1, PromotedValue(ops, a, a1, Rvalue(st, u, a)), b1,
                   PromotedValue(ops, b, b1, Rvalue(st, v, b)), st.mem);
  }

  lemma OperatorShaped(ops: Ops, op: BinOp, a: Ty, u: Value, b: Ty, v: Value, mem: Memory)
    ensures Shaped(OperatorResult(ops, op, a, u, b, v, mem), TypeOfOperator(op, a, b))
  {
    hide TypePrecedence, BinOp.IsArithmetic, BinOp.IsOrdering, BinOp.IsBitwise, Zip, Reduce, CastArray, Ty.IsFloat;
    ScalarsAreNumbers();
    if IsProduct(op, a, b) {
    } else if OperandType(op, a, b).Some? {
      OperandTypeIsNumber(op, a, b);
    }
  }

  lemma OperandTypeIsNumber(op: BinOp, a: Ty, b: Ty)
    ensures OperandType(op, a, b).Some? ==> IsNumber(OperandType(op, a, b).value)
    ensures OperandType(op, a, b).Some? && !IsElementwise(op, a, b) ==> IsNumber(a) && IsNumber(b)
    ensures IsElementwise(op, a, b) ==> ZipSize(a, b) > 1
  {
    hide BinOp.IsArithmetic, BinOp.IsOrdering, BinOp.IsBitwise, IsNumber, TypePrecedence;
    OperandsAre(op, a, b);
    if OperandType(op, a, b).Some? {
      UnitsAre(a);
      UnitsAre(b);
      PrecedenceIsHighest(Unit(a), Unit(b));
      Int32IsNumber();
    }
  }

  lemma Int32IsNumber()
    ensures IsNumber(Int32)
  {
  }

  /** The operands that get an operand type are scalars and arrays. */
  lemma OperandsAre(op: BinOp, a: Ty, b: Ty)
    ensures OperandType(op, a, b).Some? ==> IsNumeric(a) && IsNumeric(b)
    ensures IsElementwise(op, a, b) ==> ZipSize(a, b) > 1
    ensures OperandType(op, a, b).Some? && !IsElementwise(op, a, b) ==> IsNumber(a) && IsNumber(b)
  {
    hide BinOp.IsArithmetic, BinOp.IsOrdering, BinOp.IsBitwise, TypePrecedence, IsNumber, Ty.IsScalar, Ty.IsArray,
      IsList;
    KindsAre(a);
    KindsAre(b);
  }

  lemma KindsAre(t: Ty)
    ensures t.IsScalar() == IsNumber(t) && t.IsArray() == IsList(t) && (IsList(t) ==> t.Vec? && t.size > 1)
    ensures t.Vec? ==> !IsNumber(t)
  {
  }

  lemma CoerceShaped(ops: Ops, r: Result, from: Static, to: Static)
    requires from.Typed? && Shaped(r.v, from) && to.Typed?
    requires to == from || (!to.ptr && (to.ty == from.ty || IsNumber(to.ty) || IsList(to.ty)))
    requires !to.ptr && IsNumeric(to.ty) && to.ty != from.ty && IsList(from.ty) ==> Width(to.ty) == Width(from.ty)
    requires to.ty != from.ty && IsList(from.ty) ==> IsList(to.ty)
    ensures Shaped(Coerce(ops, r, from, to), to)
  {
    ScalarsAreNumbers();
  }

  lemma TernaryTypesFit(x: Static, y: Static)
    requires x.Typed? && y.Typed?
    ensures var to := TypeOfTernary(x, y);
            to.Typed? ==>
              && (to == x || (!to.ptr && (to.ty == x.ty || IsNumber(to.ty) || IsList(to.ty))))
              && (to == y || (!to.ptr && (to.ty == y.ty || IsNumber(to.ty) || IsList(to.ty))))
              && (to.ty != x.ty && IsList(x.ty) ==> IsList(to.ty) && Width(to.ty) == Width(x.ty))
              && (to.ty != y.ty && IsList(y.ty) ==> IsList(to.ty) && Width(to.ty) == Width(y.ty))
  {
    ScalarsAreNumbers();
  }

  lemma {:induction false} EvalShaped(cx: Context, e: Expr, env: Env, st: State)
    ensures Shaped(Eval(cx, e, env, st).v, Check(cx.functions, e, env))
    decreases e, 1
  {
    hide BinaryResult, TypeOfBinary, AssignTo, CallEffect, CastArgs, UnaryEach, ConvertEach, PackType, CanAssign,
      Coerce, TypeOfTernary, Resolve, IsNumber, EntryOf, TypeOfEntry;
    ScalarsAreNumbers();
    match e
    case Literal(_, _) =>
    case Local(_) =>
    case Attribute(_, _) =>
    case Component(i, v) => EvalShaped(cx, v, env, Eval(cx, i, env, st).st);
    case MatrixEntry(i, j, m) =>
      var x := Eval(cx, i, env, st);
      EvalShaped(cx, m, env, Eval(cx, j, env, x.st).st);
      EntryShaped(cx, e, env, st);
    case Unary(_, a) => EvalShaped(cx, a, env, st);
    case Binary(op, l, r) =>
      var a := Eval(cx, l, env, st);
      var b := Eval(cx, r, env, a.st);
      BinaryShaped(cx.ops, op, TyOf(cx.functions, l, env), a.v, TyOf(cx.functions, r, env), b.v, b.st);
    case Logical(_, _, _) =>
    case Ternary(_, _, _) => TernaryShaped(cx, e, env, st);
    case Comma(es) => if es.ConsExpr? { CommaShaped(cx, es, env, st); }
    case Assign(l, _, _) =>
      EvalShaped(cx, l, env, st);
    case Crement(v, _, _) => EvalShaped(cx, v, env, st);
    case Cast(_, _) =>
    case Call(_, _) => CallShaped(cx, e, env, st);
    case ArrayPack(_) => PackShaped(cx, e, env, st);
  }

  lemma EntryShaped(cx: Context, e: Expr, env: Env, st: State)
    requires e.MatrixEntry?
    requires Shaped(Eval(cx, e.matrix, env, Eval(cx, e.column, env, Eval(cx, e.row, env, st).st).st).v,
                    Check(cx.functions, e.matrix, env))
    ensures Shaped(Eval(cx, e, env, st).v, Check(cx.functions, e, env))
  {
    ScalarsAreNumbers();
  }

  lemma {:induction false} TernaryShaped(cx: Context, e: Expr, env: Env, st: State)
    requires e.Ternary?
    ensures Shaped(Eval(cx, e, env, st).v, Check(cx.functions, e, env))
    decreases e, 0
  {
    hide Coerce, TypeOfTernary, IsNumber, Shaped;
    var a := Eval(cx, e.cond, env, st);
    var t := if e.onTrue.Some? then e.onTrue.value else e.cond;
    var x, y := Check(cx.functions, t, env), Check(cx.functions, e.onFalse, env);
    if Check(cx.functions, e, env).Typed? {
      EvalShaped(cx, e.cond, env, st);
      EvalShaped(cx, e.onFalse, env, a.st);
      if e.onTrue.Some? { EvalShaped(cx, t, env, a.st); }
      var isTrue := cx.ops.truth(TyOf(cx.functions, e.cond, env), Read(a.st, a.v));
      var r := if !isTrue then Eval(cx, e.onFalse, env, a.st) else if e.onTrue.Some? then Eval(cx, t, env, a.st) else a;
      TernaryTypesFit(x, y);
      CoerceShaped(cx.ops, r, if isTrue then x else y, TypeOfTernary(x, y));
    } else {
      NothingToShow(Eval(cx, e, env, st).v, Check(cx.functions, e, env));
    }
  }

  lemma NothingToShow(v: Value, s: Static)
    requires !s.Typed?
    ensures Shaped(v, s)
  {
  }

  lemma {:induction false} CommaShaped(cx: Context, es: Exprs, env: Env, st: State)
    requires es.ConsExpr?
    ensures Shaped(EvalComma(cx, es, env, st).v, CheckComma(cx.functions, es, env))
    decreases es, 0
  {
    hide Shaped;
    EvalShaped(cx, es.head, env, st);
    NothingToShow(EvalComma(cx, es, env, st).v, Ill);
    if es.tail.ConsExpr? { CommaShaped(cx, es.tail, env, Eval(cx, es.head, env, st).st); }
  }

  lemma CallShaped(cx: Context, e: Expr, env: Env, st: State)
    requires e.Call?
    ensures Shaped(Eval(cx, e, env, st).v, Check(cx.functions, e, env))
  {
    hide EvalArgs, CheckArgs, Resolve, CastArgs, PutBehind, Behind;
    ScalarsAreNumbers();
  }

  lemma {:induction false} PackShaped(cx: Context, e: Expr, env: Env, st: State)
    requires e.ArrayPack?
    ensures Shaped(Eval(cx, e, env, st).v, Check(cx.functions, e, env))
    decreases e, 0
  {
    hide EvalArgs, CheckArgs, ConvertEach, PackType, ElementTypes, AllScalars;
    ScalarsAreNumbers();
    if e.elements.ConsExpr? {
      if e.elements.tail.NoExprs? {
        EvalShaped(cx, e.elements.head, env, st);
      } else {
        CheckArgsShape(cx.functions, e.elements, env);
      }
    }
  }

  // ---------------------------------------------------------------------------------------
  // Operators

  /** A binary operator accepts exactly the operands listed, and its numbers are those of its operands in the
      state after both have been evaluated. */
  lemma BinaryMeaning(cx: Context, op: BinOp, l: Expr, r: Expr, env: Env, st: State, xs: seq<int>, ys: seq<int>)
    requires var a, b := Check(cx.functions, l, env), Check(cx.functions, r, env);
             var u := Eval(cx, l, env, st);
             var v := Eval(cx, r, env, u.st);
             a.Typed? && b.Typed? && Amounts(v.st, u.v, a.ty, xs) && Amounts(v.st, v.v, b.ty, ys)
    ensures var a, b := Check(cx.functions, l, env).ty, Check(cx.functions, r, env).ty;
            var e := Binary(op, l, r);
            && (IsNumber(a) ==> |xs| == 1) && (IsList(a) ==> |xs| == Width(a))
            && (IsNumber(b) ==> |ys| == 1) && (IsList(b) ==> |ys| == Width(b))
            && BinaryIs(cx.ops, op, a, xs, b, ys, Check(cx.functions, e, env), Eval(cx, e, env, st).v)
            && Eval(cx, e, env, st).st == Eval(cx, r, env, Eval(cx, l, env, st).st).st
  {
    hide BinaryIs, Amounts, TypeOfBinary, BinaryResult, IsNumber, IsList, Width, Check, Eval;
    BinaryEvals(cx, op, l, r, env, st);
    var u := Eval(cx, l, env, st);
    var v := Eval(cx, r, env, u.st);
    BinaryLaw(cx.ops, op, Check(cx.functions, l, env).ty, u.v, xs, Check(cx.functions, r, env).ty, v.v, ys, v.st);
  }

  lemma BinaryEvals(cx: Context, op: BinOp, l: Expr, r: Expr, env: Env, st: State)
    requires Check(cx.functions, l, env).Typed? && Check(cx.functions, r, env).Typed?
    ensures var a, b := Check(cx.functions, l, env).ty, Check(cx.functions, r, env).ty;
            var u := Eval(cx, l, env, st);
            var v := Eval(cx, r, env, u.st);
            && Check(cx.functions, Binary(op, l, r), env) == TypeOfBinary(op, a, b)
            && Eval(cx, Binary(op, l, r), env, st) ==
               Result(v.st, BinaryResult(cx.ops, op, a, u.v, b, v.v, v.st))
  {
    hide TypeOfUnary, UnaryType, UnaryEach, Convert, CanAssign, TypeOfBinary, TypeOfVar, TypeOfEntry, TypeOfTernary,
      CheckComma, CheckArgs, Resolve, Lookup, LookupAttribute, AllScalars, PackType, Ty.IsInteger, EvalComma,
      EvalArgs, CastArgs, CallEffect, ConvertEach, ReadEach, EntryOf, AddressOf, Coerce, Truth, Write, AssignTo,
      BinaryResult, Rvalue;
  }

  /** Signs, complements and negation: of a scalar, booleans being widened first, or of every element. */
  ghost predicate UnaryIs(ops: Ops, op: UnOp, a: Ty, xs: seq<int>, s: Static, v: Value)
    requires IsNumber(a) ==> |xs| == 1
  {
    if IsNumber(a) then
      if op == BitNot && IsReal(a) then s == Ill
      else if op == LogicalNot then s == Typed(Bool, false) && v == Num(ops.un(op, a, xs[0]))
      else
        var wide := if a == Bool then Int32 else a;
        s == Typed(wide, false) && v == Num(ops.un(op, wide, Convert(ops, a, wide, xs[0])))
    else if IsList(a) then
      if op != UnaryMinus && IsReal(a.elem) then s == Ill
      else
        s == Typed(if op == LogicalNot then Vec(Bool, a.size) else a, false) && v.Arr? && |v.ns| == |xs| &&
        forall i | 0 <= i < |xs| :: v.ns[i] == ops.un(op, a.elem, xs[i])
    else s == Ill
  }

  lemma UnaryMeaning(cx: Context, op: UnOp, a: Expr, env: Env, st: State, xs: seq<int>)
    requires op != UnaryPlus && Check(cx.functions, a, env).Typed?
    requires var u := Eval(cx, a, env, st); Amounts(u.st, u.v, Check(cx.functions, a, env).ty, xs)
    ensures var t := Check(cx.functions, a, env).ty;
            var e := Unary(op, a);
            && (IsNumber(t) ==> |xs| == 1)
            && UnaryIs(cx.ops, op, t, xs, Check(cx.functions, e, env), Eval(cx, e, env, st).v)
            && Eval(cx, e, env, st).st == Eval(cx, a, env, st).st
  {
    hide Convert, UnaryIs, TypeOfUnary, Amounts, UnaryType, UnaryEach;
    var t := Check(cx.functions, a, env).ty;
    var u := Eval(cx, a, env, st);
    AmountsWidth(u.st, u.v, t, xs);
    UnaryEvals(cx, op, a, env, st);
    if IsNumber(t) {
      UnaryNumber(cx.ops, op, t, u.v, u.st, xs);
    } else if IsList(t) {
      UnaryList(cx.ops, op, t, u.v, u.st, xs);
    } else {
      UnaryNothing(cx.ops, op, t, u.v, u.st, xs);
    }
  }

  /** The value of a unary operator other than plus. */
  function UnaryResult(ops: Ops, op: UnOp, t: Ty, v: Value, st: State): Value {
    if t.IsArray() then Arr(UnaryEach(ops, op, t.elem, v, st.mem, t.size))
    else if op == LogicalNot then Num(ops.un(op, t, Read(st, v)))
    else Num(ops.un(op, UnaryType(t), Convert(ops, t, UnaryType(t), Read(st, v))))
  }

  lemma UnaryEvals(cx: Context, op: UnOp, a: Expr, env: Env, st: State)
    requires op != UnaryPlus && Check(cx.functions, a, env).Typed?
    ensures var t := Check(cx.functions, a, env).ty;
            var u := Eval(cx, a, env, st);
            && Check(cx.functions, Unary(op, a), env) == TypeOfUnary(op, t)
            && Eval(cx, Unary(op, a), env, st) == Result(u.st, UnaryResult(cx.ops, op, t, u.v, u.st))
  {
    hide TypeOfUnary, UnaryType, UnaryEach, Convert, Ty.IsArray, CanAssign, TypeOfBinary, TypeOfVar, TypeOfEntry,
      TypeOfTernary, CheckComma, CheckArgs, Resolve, Lookup, LookupAttribute, AllScalars, PackType, Ty.IsInteger,
      EvalComma, EvalArgs, CastArgs, CallEffect, ConvertEach, ReadEach, EntryOf, AddressOf, Coerce, Truth, Write,
      AssignTo, BinaryResult, Rvalue;
  }

  lemma UnaryNumber(ops: Ops, op: UnOp, t: Ty, v: Value, st: State, xs: seq<int>)
    requires op != UnaryPlus && IsNumber(t) && Amounts(st, v, t, xs)
    ensures |xs| == 1 && UnaryIs(ops, op, t, xs, TypeOfUnary(op, t), UnaryResult(ops, op, t, v, st))
  {
    hide Convert, UnaryEach;
    ScalarsAreNumbers();
  }

  lemma UnaryList(ops: Ops, op: UnOp, t: Ty, v: Value, st: State, xs: seq<int>)
    requires op != UnaryPlus && IsList(t) && !IsNumber(t) && Amounts(st, v, t, xs)
    ensures UnaryIs(ops, op, t, xs, TypeOfUnary(op, t), UnaryResult(ops, op, t, v, st))
  {
    hide Convert, UnaryEach, Amounts;
    ScalarsAreNumbers();
    UnaryEachIs(ops, op, t, st, v, xs, t.size);
  }

  lemma UnaryNothing(ops: Ops, op: UnOp, t: Ty, v: Value, st: State, xs: seq<int>)
    requires op != UnaryPlus && !IsNumber(t) && !IsList(t)
    ensures UnaryIs(ops, op, t, xs, TypeOfUnary(op, t), UnaryResult(ops, op, t, v, st))
  {
    ScalarsAreNumbers();
  }

  lemma {:induction false} UnaryEachIs(ops: Ops, op: UnOp, t: Ty, st: State, v: Value, xs: seq<int>, n: nat)
    requires Amounts(st, v, t, xs) && IsList(t) && n <= t.size
    ensures |xs| == t.size
    ensures forall i | 0 <= i < n :: UnaryEach(ops, op, t.elem, v, st.mem, n)[i] == ops.un(op, t.elem, xs[i])
  {
    if n > 0 {
      UnaryEachIs(ops, op, t, st, v, xs, n - 1);
      ElementIs(st, v, t, xs, n - 1);
    }
  }

  // ---------------------------------------------------------------------------------------
  // Conversions between types

  /** Numbers of one type as numbers of another: a number goes into every element of a vector, and on the
      diagonal of a matrix. */
  function Stretched(ops: Ops, from: Ty, to: Ty, xs: seq<int>): (ys: seq<int>)
    requires (IsNumber(from) && |xs| == 1) || (IsList(from) && |xs| == from.size)
    requires IsNumber(to) || IsList(to)
  {
    if IsNumber(to) || IsList(from) then Converted(ops, Unit(from), Unit(to), xs)
    else
      var x := Convert(ops, from, to.elem, xs[0]);
      if IsSquare(to.size) then Diagonal(to.size, x) else seq(to.size, _ => x)
  }

  /** The type of a ternary with values of these types. */
  predicate TernaryIs(x: Static, y: Static, s: Static)
    requires x.Typed? && y.Typed?
  {
    if x == y then s == x
    else if x.ty == y.ty && x.ty != Void then s == Typed(x.ty, false)
    else if IsNumber(x.ty) && IsNumber(y.ty) then
      s.Typed? && !s.ptr && IsHighest(s.ty, [x.ty, y.ty])
    else if IsNumeric(x.ty) && IsNumeric(y.ty) && (IsList(x.ty) && IsList(y.ty) ==> x.ty.size == y.ty.size) then
      var size := if IsList(x.ty) then x.ty.size else y.ty.size;
      // a matrix made of a scalar needs a floating point zero
      if IsSquare(size) && (IsNumber(x.ty) || IsNumber(y.ty)) && !IsReal(Unit(x.ty)) && !IsReal(Unit(y.ty)) then
        s == Ill
      else s.Typed? && !s.ptr && s.ty.Vec? && s.ty.size == size && IsHighest(s.ty.elem, [Unit(x.ty), Unit(y.ty)])
    else s == Ill
  }

  lemma TernaryTypeLaw(x: Static, y: Static)
    requires x.Typed? && y.Typed?
    ensures TernaryIs(x, y, TypeOfTernary(x, y))
  {
    hide TypePrecedence, NotAbove;
    ScalarsAreNumbers();
    if IsNumeric(x.ty) && IsNumeric(y.ty) {
      UnitsAre(x.ty);
      UnitsAre(y.ty);
      PrecedenceIsHighest(Unit(x.ty), Unit(y.ty));
    }
  }

  /** Numbers of a type are left alone by a conversion to it. */
  lemma StretchedSame(ops: Ops, t: Ty, xs: seq<int>)
    requires (IsNumber(t) && |xs| == 1) || (IsList(t) && |xs| == t.size)
    ensures Stretched(ops, t, t, xs) == xs
  {
  }

  lemma SpreadIs(x: int, size: nat)
    ensures Spread(x, 0, size) == if IsSquare(size) then Diagonal(size, x) else seq(size, _ => x)
  {
    if IsSquare(size) { SpreadIsDiagonal(x, size); }
  }

  lemma CoerceLaw(ops: Ops, r: Result, from: Static, to: Static, xs: seq<int>)
    requires from.Typed? && Amounts(r.st, r.v, from.ty, xs) && IsNumeric(from.ty)
    requires to.Typed? && IsNumeric(to.ty) && (to == from || !to.ptr)
    requires IsList(from.ty) ==> IsList(to.ty) && Width(to.ty) == Width(from.ty)
    ensures (IsNumber(from.ty) ==> |xs| == 1) && (IsList(from.ty) ==> |xs| == Width(from.ty))
    ensures Amounts(r.st, Coerce(ops, r, from, to), to.ty, Stretched(ops, from.ty, to.ty, xs))
  {
    hide Spread, Diagonal, Convert;
    ScalarsAreNumbers();
    if from.ty == to.ty {
      StretchedSame(ops, from.ty, xs);
      UnitsAre(from.ty);
      if to != from && IsNumber(to.ty) { SameNumber(ops, from.ty, xs[0]); }
    } else if IsList(from.ty) {
      CastCellsAre(ops, from.ty.elem, to.ty.elem, r.st, r.v, from.ty, xs, from.ty.size);
      var ys := Converted(ops, from.ty.elem, to.ty.elem, xs);
      assert ys[..from.ty.size] == ys;
    } else {
      SpreadIs(Convert(ops, from.ty, Unit(to.ty), xs[0]), Width(to.ty));
    }
  }

  lemma SameNumber(ops: Ops, t: Ty, x: int)
    ensures Convert(ops, t, t, x) == x
  {
  }

  /** The value of a ternary: one branch is evaluated, and its numbers are those of the common type. */
  lemma TernaryMeaning(cx: Context, e: Expr, env: Env, st: State, xs: seq<int>)
    requires e.Ternary? && Check(cx.functions, e, env).Typed?
    requires var c := Chosen(cx, e, env, st);
             IsNumeric(c.0.ty) && Amounts(c.1.st, c.1.v, c.0.ty, xs)
    ensures var c := Chosen(cx, e, env, st);
            var s := Check(cx.functions, e, env);
            var t := if e.onTrue.Some? then e.onTrue.value else e.cond;
            && Check(cx.functions, t, env).Typed? && Check(cx.functions, e.onFalse, env).Typed?
            && TernaryIs(Check(cx.functions, t, env), Check(cx.functions, e.onFalse, env), s)
            && ((IsNumber(c.0.ty) && |xs| == 1) || (IsList(c.0.ty) && |xs| == c.0.ty.size)) && IsNumeric(s.ty)
            && Amounts(c.1.st, Eval(cx, e, env, st).v, s.ty, Stretched(cx.ops, c.0.ty, s.ty, xs))
            && Eval(cx, e, env, st).st == c.1.st && (s == c.0 ==> Eval(cx, e, env, st).v == c.1.v)
  {
    hide Amounts, Coerce, TypeOfTernary, TernaryIs, Stretched, IsNumber, IsList, Read;
    var c := Chosen(cx, e, env, st);
    var s := Check(cx.functions, e, env);
    var t := if e.onTrue.Some? then e.onTrue.value else e.cond;
    var x, y := Check(cx.functions, t, env), Check(cx.functions, e.onFalse, env);
    TernaryTypeLaw(x, y);
    AmountsWidth(c.1.st, c.1.v, c.0.ty, xs);
    TernaryNumeric(x, y);
    CoerceLaw(cx.ops, c.1, c.0, s, xs);
    if s == c.0 { CoerceSame(cx.ops, c.1, s); }
  }

  lemma CoerceSame(ops: Ops, r: Result, s: Static)
    ensures Coerce(ops, r, s, s) == r.v
  {
  }

  lemma TernaryNumeric(x: Static, y: Static)
    requires x.Typed? && y.Typed? && TypeOfTernary(x, y).Typed? && (IsNumeric(x.ty) || IsNumeric(y.ty))
    ensures var to := TypeOfTernary(x, y);
            && IsNumeric(x.ty) && IsNumeric(y.ty) && IsNumeric(to.ty) && (to == x || !to.ptr) && (to == y || !to.ptr)
            && (IsList(x.ty) ==> !IsNumber(x.ty) && IsList(to.ty) && Width(to.ty) == Width(x.ty))
            && (IsList(y.ty) ==> !IsNumber(y.ty) && IsList(to.ty) && Width(to.ty) == Width(y.ty))
  {
    ScalarsAreNumbers();
  }

  /** The static type of the branch that is taken, and what evaluating it after the condition gives. Without a
      true branch the condition itself is the value. */
  function Chosen(cx: Context, e: Expr, env: Env, st: State): (c: (Static, Result))
    requires e.Ternary? && Check(cx.functions, e, env).Typed?
    ensures c.0.Typed?
  {
    var a := Eval(cx, e.cond, env, st);
    if !cx.ops.truth(Check(cx.functions, e.cond, env).ty, Read(a.st, a.v)) then
      (Check(cx.functions, e.onFalse, env), Eval(cx, e.onFalse, env, a.st))
    else if e.onTrue.Some? then
      (Check(cx.functions, e.onTrue.value, env), Eval(cx, e.onTrue.value, env, a.st))
    else (Check(cx.functions, e.cond, env), a)
  }

  /** A ternary is accepted when its condition is a scalar and its values have a common type. */
  lemma TernaryChecked(fs: Functions, e: Expr, env: Env)
    requires e.Ternary?
    ensures var c := Check(fs, e.cond, env);
            var x := if e.onTrue.Some? then Check(fs, e.onTrue.value, env) else c;
            var y := Check(fs, e.onFalse, env);
            if c.Typed? && IsNumber(c.ty) && x.Typed? && y.Typed? then TernaryIs(x, y, Check(fs, e, env))
            else Check(fs, e, env) == Ill
  {
    hide TypeOfTernary, TernaryIs;
    ScalarsAreNumbers();
    var x := Check(fs, if e.onTrue.Some? then e.onTrue.value else e.cond, env);
    var y := Check(fs, e.onFalse, env);
    if x.Typed? && y.Typed? { TernaryTypeLaw(x, y); }
  }

  // ---------------------------------------------------------------------------------------
  // Assignments

  /** What can be assigned to what: scalars to scalars, and to an array arrays of its size and scalars. */
  predicate Takes(a: Static, b: Ty) {
    a.Typed? && a.ptr &&
    ((IsNumber(a.ty) && IsNumber(b)) ||
     (IsList(a.ty) && a.ty.elem != Bool &&
      ((IsList(b) && b.size == a.ty.size) || (IsNumber(b) && (IsSquare(a.ty.size) ==> IsReal(a.ty.elem))))))
  }

  /** A number becomes the number of the target; a boolean target tests it against zero. */
  ghost predicate NumberStored(ops: Ops, to: Ty, from: Ty, x: int, z: int) {
    if to == Bool then
      exists t :: IsHighest(t, [Int32, from]) &&
                  z == ops.bin(NotEquals, t, Convert(ops, Int32, t, 0), Convert(ops, from, t, x))
    else z == Convert(ops, from, to, x)
  }

  /** Exactly the cells of the target have changed, and hold the numbers of the source. */
  ghost predicate StoredIs(ops: Ops, before: State, at: Address, to: Ty, from: Ty, xs: seq<int>, after: State)
    requires (IsNumber(from) && |xs| == 1) || (IsList(from) && |xs| == from.size)
    requires IsNumber(to) || IsList(to)
  {
    && after.ext == before.ext
    && (if IsNumber(to) then
          IsNumber(from) && NumberStored(ops, to, from, xs[0], Get(after.mem, at)) &&
          forall b: Address :: b != at ==> Get(after.mem, b) == Get(before.mem, b)
        else
          var ys := Stretched(ops, from, to, xs);
          && |ys| == to.size
          && (forall i | 0 <= i < to.size :: Get(after.mem, Address(at.slot, i)) == ys[i])
          && forall b: Address :: b.slot != at.slot || b.cell < 0 || to.size <= b.cell ==>
               Get(after.mem, b) == Get(before.mem, b))
  }

  lemma AssignableLaw(a: Static, b: Ty)
    ensures CanAssign(a, b) <==> Takes(a, b)
  {
    ScalarsAreNumbers();
  }

  lemma GetPut(mem: Memory, a: Address, n: int, b: Address)
    ensures Get(mem[a := n], b) == if b == a then n else Get(mem, b)
  {
  }

  lemma NoCellYet(ops: Ops, mem: Memory, slot: nat, elem: Ty, v: Value, from: Ty)
    ensures AssignCells(ops, mem, slot, elem, v, from, 0) == mem
  {
  }

  lemma OneCellMore(ops: Ops, mem: Memory, slot: nat, elem: Ty, v: Value, from: Ty, n: nat)
    requires n > 0
    ensures var before := AssignCells(ops, mem, slot, elem, v, from, n - 1);
            AssignCells(ops, mem, slot, elem, v, from, n) ==
              before[Address(slot, n - 1) := Convert(ops, from, elem, ElementAt(before, v, n - 1))]
  {
  }

  /** An element of a cell that two memories agree on. */
  lemma SameElement(a: Memory, b: Memory, v: Value, i: nat)
    requires v.Ptr? ==> Get(a, Address(v.a.slot, i)) == Get(b, Address(v.a.slot, i))
    ensures ElementAt(a, v, i) == ElementAt(b, v, i)
  {
  }

  /** Elements are assigned one after the other; each is read as it was, even from the target itself. */
  lemma {:induction false} AssignedCell(ops: Ops, mem: Memory, slot: nat, elem: Ty, v: Value, from: Ty, n: nat,
                                        b: Address)
    ensures Get(AssignCells(ops, mem, slot, elem, v, from, n), b) ==
            if b.slot == slot && 0 <= b.cell < n then Convert(ops, from, elem, ElementAt(mem, v, b.cell))
            else Get(mem, b)
    decreases n
  {
    hide Convert, AssignCells, ElementAt, Get;
    if n == 0 {
      NoCellYet(ops, mem, slot, elem, v, from);
    } else {
      AssignedCell(ops, mem, slot, elem, v, from, n - 1, b);
      var before := AssignCells(ops, mem, slot, elem, v, from, n - 1);
      if v.Ptr? { AssignedCell(ops, mem, slot, elem, v, from, n - 1, Address(v.a.slot, n - 1)); }
      SameElement(before, mem, v, n - 1);
      OneCellMore(ops, mem, slot, elem, v, from, n);
      GetPut(before, Address(slot, n - 1), Convert(ops, from, elem, ElementAt(mem, v, n - 1)), b);
    }
  }

  lemma StoreNumber(ops: Ops, st: State, at: Address, to: Ty, v: Value, from: Ty, xs: seq<int>)
    requires Amounts(st, v, from, xs) && IsNumber(to) && IsNumber(from)
    ensures |xs| == 1
    ensures StoredIs(ops, st, at, to, from, xs, AssignTo(ops, st, Ptr(at), to, Rvalue(st, v, from), from))
  {
    hide Convert, OperandType, BinaryValue, IsHighest;
    ScalarsAreNumbers();
    if to == Bool {
      NumbersLaw(ops, NotEquals, Int32, 0, from, xs[0]);
    }
  }

  lemma StoreList(ops: Ops, st: State, at: Address, to: Ty, v: Value, from: Ty, xs: seq<int>)
    requires Amounts(st, v, from, xs) && IsList(to) && Takes(Typed(to, true), from)
    ensures (IsNumber(from) && |xs| == 1) || (IsList(from) && |xs| == from.size)
    ensures StoredIs(ops, st, at, to, from, xs, AssignTo(ops, st, Ptr(at), to, Rvalue(st, v, from), from))
  {
    hide Convert, IsNumber, IsReal, Amounts, Promotion, Loaded, PromotedValue;
    UnitsAre(to);
    UnitsAre(from);
    RvalueIs(st, v, from, xs);
    LoadedWidth(st, Rvalue(st, v, from), from, xs);
    var from1 := Promotion(from, to);
    PromotionIs(from, to);
    var w := PromotedValue(ops, from, from1, Rvalue(st, v, from));
    var ws := if from1 == from then xs else Diagonal(to.size, Convert(ops, from, to.elem, xs[0]));
    if from1 == from {
      StaysAsItIs(ops, from, Rvalue(st, v, from));
    } else {
      PromotedIs(ops, from, to, st, Rvalue(st, v, from), xs);
    }
    LoadedWidth(st, w, from1, ws);
    forall b: Address
      ensures Get(AssignCells(ops, st.mem, at.slot, to.elem, w, Unit(from1), to.size), b) ==
              if b.slot == at.slot && 0 <= b.cell < to.size
              then Convert(ops, Unit(from1), to.elem, ElementAt(st.mem, w, b.cell)) else Get(st.mem, b)
    {
      AssignedCell(ops, st.mem, at.slot, to.elem, w, Unit(from1), to.size, b);
    }
    forall i: nat | i < to.size
      ensures |Stretched(ops, from, to, xs)| == to.size
      ensures Convert(ops, Unit(from1), to.elem, ElementAt(st.mem, w, i)) == Stretched(ops, from, to, xs)[i]
    {
      LoadedElement(st, w, from1, ws, i);
      if from1 != from { SameNumber(ops, to.elem, ws[i]); }
    }
    assert ElementOf(from1) == Unit(from1) by { UnitsAre(from1); }
  }

  lemma StoreLaw(ops: Ops, st: State, at: Address, to: Ty, v: Value, from: Ty, xs: seq<int>)
    requires Amounts(st, v, from, xs) && Takes(Typed(to, true), from)
    ensures ((IsNumber(from) && |xs| == 1) || (IsList(from) && |xs| == from.size)) && (IsNumber(to) || IsList(to))
    ensures StoredIs(ops, st, at, to, from, xs, AssignTo(ops, st, Ptr(at), to, Rvalue(st, v, from), from))
  {
    hide StoredIs, AssignTo, Amounts;
    if IsNumber(to) { StoreNumber(ops, st, at, to, v, from, xs); } else { StoreList(ops, st, at, to, v, from, xs); }
  }

  /** An assignment is accepted when the target takes the type of the source, yields the target, and changes its
      cells and nothing else that evaluating both sides has not changed. */
  lemma AssignMeaning(cx: Context, l: Expr, r: Expr, env: Env, st: State, xs: seq<int>)
    requires var u := Eval(cx, l, env, st);
             var v := Eval(cx, r, env, u.st);
             var b := Check(cx.functions, r, env);
             b.Typed? && Amounts(v.st, v.v, b.ty, xs)
    ensures var a, b := Check(cx.functions, l, env), Check(cx.functions, r, env);
            var u := Eval(cx, l, env, st);
            var v := Eval(cx, r, env, u.st);
            var e := Assign(l, None, r);
            && Check(cx.functions, e, env) == (if Takes(a, b.ty) then a else Ill)
            && (Takes(a, b.ty) ==>
                  && u.v.Ptr? && Eval(cx, e, env, st).v == u.v
                  && ((IsNumber(b.ty) && |xs| == 1) || (IsList(b.ty) && |xs| == b.ty.size))
                  && StoredIs(cx.ops, v.st, u.v.a, a.ty, b.ty, xs, Eval(cx, e, env, st).st))
  {
    hide StoredIs, AssignTo, Amounts, Rvalue, Takes, IsNumber, IsList, Check, Eval;
    var a, b := Check(cx.functions, l, env), Check(cx.functions, r, env);
    var u := Eval(cx, l, env, st);
    var v := Eval(cx, r, env, u.st);
    AssignChecks(cx.functions, l, r, env);
    if Takes(a, b.ty) {
      TakesOperands(a, b.ty);
      EvalShaped(cx, l, env, st);
      StoreLaw(cx.ops, v.st, u.v.a, a.ty, v.v, b.ty, xs);
      AssignEvals(cx, l, r, env, st);
    }
  }

  lemma AssignChecks(fs: Functions, l: Expr, r: Expr, env: Env)
    requires Check(fs, r, env).Typed?
    ensures var a, b := Check(fs, l, env), Check(fs, r, env);
            Check(fs, Assign(l, None, r), env) == if Takes(a, b.ty) then a else Ill
  {
    hide CanAssign, Takes, TypeOfUnary, TypeOfBinary, TypeOfVar, TypeOfEntry, TypeOfTernary, CheckComma, CheckArgs,
      Resolve, Lookup, LookupAttribute, AllScalars, PackType, Ty.IsInteger;
    var a, b := Check(fs, l, env), Check(fs, r, env);
    AssignableLaw(a, b.ty);
    if Takes(a, b.ty) { TakesOperands(a, b.ty); }
  }

  lemma AssignEvals(cx: Context, l: Expr, r: Expr, env: Env, st: State)
    requires Check(cx.functions, l, env).Typed? && Check(cx.functions, r, env).Typed?
    ensures var a, b := Check(cx.functions, l, env).ty, Check(cx.functions, r, env).ty;
            var u := Eval(cx, l, env, st);
            var v := Eval(cx, r, env, u.st);
            Eval(cx, Assign(l, None, r), env, st) ==
            Result(AssignTo(cx.ops, v.st, u.v, a, Rvalue(v.st, v.v, b), b), u.v)
  {
    hide AssignTo, Rvalue, CanAssign, TypeOfUnary, TypeOfBinary, TypeOfVar, TypeOfEntry, TypeOfTernary, CheckComma,
      CheckArgs, Resolve, Lookup, LookupAttribute, AllScalars, PackType, Ty.IsInteger, EvalComma, EvalArgs, CastArgs,
      CallEffect, ConvertEach, ReadEach, EntryOf, AddressOf, Coerce, Truth, Write, UnaryEach, BinaryResult;
  }

  lemma TakesOperands(a: Static, b: Ty)
    requires Takes(a, b)
    ensures a.Typed? && a.ptr && a == Typed(a.ty, true) && Semantics.IsOperand(b)
  {
    ScalarsAreNumbers();
  }

  /** A compound assignment stores the result of the operator on the target and the source. */
  lemma CompoundMeaning(cx: Context, l: Expr, op: BinOp, r: Expr, env: Env, st: State, xs: seq<int>, ys: seq<int>)
    returns (s: Static, w: Value)
    requires var a, b := Check(cx.functions, l, env), Check(cx.functions, r, env);
             var u := Eval(cx, l, env, st);
             var v := Eval(cx, r, env, u.st);
             a.Typed? && b.Typed? && Amounts(v.st, u.v, a.ty, xs) && Amounts(v.st, v.v, b.ty, ys)
    ensures var a, b := Check(cx.functions, l, env), Check(cx.functions, r, env);
            var u := Eval(cx, l, env, st);
            var v := Eval(cx, r, env, u.st);
            var e := Assign(l, Some(op), r);
            && (IsNumber(a.ty) ==> |xs| == 1) && (IsList(a.ty) ==> |xs| == Width(a.ty))
            && (IsNumber(b.ty) ==> |ys| == 1) && (IsList(b.ty) ==> |ys| == Width(b.ty))
            && BinaryIs(cx.ops, op, a.ty, xs, b.ty, ys, s, w)
            && Check(cx.functions, e, env) == (if s.Typed? && Takes(a, s.ty) then a else Ill)
            && (s.Typed? && Takes(a, s.ty) ==>
                  && u.v.Ptr? && Eval(cx, e, env, st).v == u.v
                  && exists zs :: Amounts(v.st, w, s.ty, zs) &&
                       ((IsNumber(s.ty) && |zs| == 1) || (IsList(s.ty) && |zs| == s.ty.size)) &&
                       StoredIs(cx.ops, v.st, u.v.a, a.ty, s.ty, zs, Eval(cx, e, env, st).st))
  {
    hide StoredIs, AssignTo, Amounts, CanAssign, Rvalue, Takes, IsNumber, IsList, BinaryIs, BinaryResult,
      TypeOfBinary;
    var a, b := Check(cx.functions, l, env), Check(cx.functions, r, env);
    var u := Eval(cx, l, env, st);
    var v := Eval(cx, r, env, u.st);
    s, w := TypeOfBinary(op, a.ty, b.ty), BinaryResult(cx.ops, op, a.ty, u.v, b.ty, v.v, v.st);
    BinaryLaw(cx.ops, op, a.ty, u.v, xs, b.ty, v.v, ys, v.st);
    if s.Typed? {
      AssignableLaw(a, s.ty);
      if Takes(a, s.ty) {
        TakesOperands(a, s.ty);
        EvalShaped(cx, l, env, st);
        BinaryShaped(cx.ops, op, a.ty, u.v, b.ty, v.v, v.st);
        var zs := ShapedAmounts(v.st, w, s);
        StoreLaw(cx.ops, v.st, u.v.a, a.ty, w, s.ty, zs);
        ResultIsLoaded(op, a.ty, b.ty, w, v.st);
      }
    }
  }

  /** The result of an operator needs no loading. */
  lemma ResultIsLoaded(op: BinOp, a: Ty, b: Ty, w: Value, st: State)
    requires TypeOfBinary(op, a, b).Typed? && Shaped(w, TypeOfBinary(op, a, b))
    ensures Rvalue(st, w, TypeOfBinary(op, a, b).ty) == w
  {
    hide Promotion;
    ScalarsAreNumbers();
  }

  /** An initialiser is assigned to the slot the declaration owns; it is evaluated with the name in scope. */
  lemma DeclareMeaning(cx: Context, ty: Ty, name: string, initial: Expr, env: Env, st: State, fuel: nat, xs: seq<int>)
    requires var env1 := Declared(env, ty, name);
             var v := Eval(cx, initial, env1, st);
             var b := Check(cx.functions, initial, env1);
             b.Typed? && Amounts(v.st, v.v, b.ty, xs)
    ensures var env1 := Declared(env, ty, name);
            var v := Eval(cx, initial, env1, st);
            var b := Check(cx.functions, initial, env1).ty;
            var s := Declare(ty, name, Some(initial));
            && (CheckStmt(cx.functions, s, env, false) <==> CanDeclare(env, name) && Takes(Typed(ty, true), b))
            && (Takes(Typed(ty, true), b) ==>
                  && ((IsNumber(b) && |xs| == 1) || (IsList(b) && |xs| == b.size))
                  && Exec(cx, s, env, st, fuel).Normal?
                  && StoredIs(cx.ops, v.st, Address(env.slots, 0), ty, b, xs, Exec(cx, s, env, st, fuel).st))
  {
    hide StoredIs, AssignTo, Amounts, CanAssign, Rvalue, Takes, IsNumber, IsList, Eval, Check, Declared;
    var env1 := Declared(env, ty, name);
    var v := Eval(cx, initial, env1, st);
    var b := Check(cx.functions, initial, env1).ty;
    AssignableLaw(Typed(ty, true), b);
    if Takes(Typed(ty, true), b) {
      TakesOperands(Typed(ty, true), b);
      StoreLaw(cx.ops, v.st, Address(env.slots, 0), ty, v.v, b, xs);
    }
  }

  // ---------------------------------------------------------------------------------------
  // Entries and packs

  /** `m[row, column]` is cell `row * 3 + column` of a matrix of nine and `row * 4 + column` of one of sixteen,
      computed on int32. */
  lemma EntryMeaning(cx: Context, row: Expr, column: Expr, m: Expr, env: Env, st: State)
    ensures var i, j, a := Check(cx.functions, row, env), Check(cx.functions, column, env), Check(cx.functions, m, env);
            var e := MatrixEntry(row, column, m);
            var x := Eval(cx, row, env, st);
            var y := Eval(cx, column, env, x.st);
            var v := Eval(cx, m, env, y.st);
            if i.Typed? && j.Typed? && a.Typed? && i.ty == j.ty == Int32 && a.ptr && a.ty.Vec? && IsSquare(a.ty.size)
            then
              var d := if a.ty.size == 9 then 3 else 4;
              && Check(cx.functions, e, env) == Typed(a.ty.elem, true) && v.v.Ptr?
              && Eval(cx, e, env, st) ==
                 Result(v.st, Ptr(Address(v.v.a.slot, cx.ops.bin(Plus, Int32,
                   cx.ops.bin(Multiply, Int32, Read(v.st, x.v), d), Read(v.st, y.v)))))
            else Check(cx.functions, e, env) == Ill
  {
    var x := Eval(cx, row, env, st);
    EvalShaped(cx, m, env, Eval(cx, column, env, x.st).st);
  }

  function NthExpr(es: Exprs, i: nat): Expr
    requires i < Length(es)
  {
    if i == 0 then es.head else NthExpr(es.tail, i - 1)
  }

  /** Scalars are passed by value and arrays by pointer; nothing else is passed. */
  ghost predicate ArgsAre(fs: Functions, es: Exprs, env: Env, ts: seq<ArgTy>) {
    |ts| == Length(es) &&
    forall i: nat | i < |ts| ::
      var s := Check(fs, NthExpr(es, i), env);
      s.Typed? && IsNumeric(s.ty) && ts[i] == if IsNumber(s.ty) then ByValue(s.ty) else Pointer(ByValue(s.ty))
  }

  predicate CanPass(fs: Functions, e: Expr, env: Env) {
    Check(fs, e, env).Typed? && IsNumeric(Check(fs, e, env).ty)
  }

  ghost predicate AllPassable(fs: Functions, es: Exprs, env: Env) {
    forall i: nat | i < Length(es) :: CanPass(fs, NthExpr(es, i), env)
  }

  lemma PassableSplit(fs: Functions, es: Exprs, env: Env)
    requires es.ConsExpr?
    ensures AllPassable(fs, es, env) <==> CanPass(fs, es.head, env) && AllPassable(fs, es.tail, env)
  {
    hide CanPass;
    assert NthExpr(es, 0) == es.head;
    forall i: nat | i < Length(es.tail) ensures NthExpr(es, i + 1) == NthExpr(es.tail, i) {}
    if CanPass(fs, es.head, env) && AllPassable(fs, es.tail, env) {
      forall i: nat | i < Length(es) ensures CanPass(fs, NthExpr(es, i), env) {
        if i > 0 { assert NthExpr(es, i) == NthExpr(es.tail, i - 1); }
      }
    }
  }

  lemma ArgsSplit(fs: Functions, es: Exprs, env: Env, t: ArgTy, ts: seq<ArgTy>)
    requires es.ConsExpr? && ArgsAre(fs, es.tail, env, ts) && CanPass(fs, es.head, env)
    requires var ty := Check(fs, es.head, env).ty; t == if IsNumber(ty) then ByValue(ty) else Pointer(ByValue(ty))
    ensures ArgsAre(fs, es, env, [t] + ts)
  {
    hide Check, IsNumber, IsNumeric;
    forall i: nat | i < Length(es)
      ensures CanPass(fs, NthExpr(es, i), env)
      ensures var s := Check(fs, NthExpr(es, i), env);
              ([t] + ts)[i] == if IsNumber(s.ty) then ByValue(s.ty) else Pointer(ByValue(s.ty))
    {
      if i > 0 { assert NthExpr(es, i) == NthExpr(es.tail, i - 1); }
    }
  }

  lemma {:induction false} ArgsLaw(fs: Functions, es: Exprs, env: Env)
    ensures CheckArgs(fs, es, env).Some? <==> AllPassable(fs, es, env)
    ensures CheckArgs(fs, es, env).Some? ==> ArgsAre(fs, es, env, CheckArgs(fs, es, env).value)
  {
    hide Check, IsNumber, IsList, ArgsAre, AllPassable;
    match es
    case NoExprs => NoArgs(fs, env);
    case ConsExpr(e, rest) =>
      ArgsLaw(fs, rest, env);
      PassableSplit(fs, es, env);
      var t := Check(fs, e, env);
      ScalarsAreNumbers();
      if CanPass(fs, e, env) {
        UnitsAre(t.ty);
        if AllPassable(fs, rest, env) { ArgsSplit(fs, es, env, ArgType(t.ty), CheckArgs(fs, rest, env).value); }
      }
  }

  lemma NoArgs(fs: Functions, env: Env)
    ensures AllPassable(fs, NoExprs, env) && ArgsAre(fs, NoExprs, env, [])
  {
  }

  lemma {:induction false} PackTypeLaw(ts: seq<Ty>)
    requires |ts| > 0 && forall t | t in ts :: IsNumber(t)
    ensures (forall t | t in ts :: t.IsScalar()) && IsNumber(PackType(ts)) && IsHighest(PackType(ts), ts)
  {
    hide TypePrecedence;
    ScalarsAreNumbers();
    var n := |ts| - 1;
    var last := ts[n];
    assert last in ts;
    if n > 0 {
      PackTypeLaw(ts[..n]);
      var before := PackType(ts[..n]);
      PrecedenceIsHighest(before, last);
      var t := TypePrecedence(before, last);
      assert t == [before, last][0] || t == [before, last][1];
      forall i | 0 <= i < n ensures NotAbove(ts[i], t) {
        assert NotAbove(ts[..n][i], before) && NotAbove([before, last][0], t);
        NotAboveOn(ts[i], before, t);
      }
      assert NotAbove([before, last][1], t);
      assert before in ts;
    } else {
      assert PackType(ts[..0]) == Bool;
      PrecedenceIsHighest(Bool, last);
      var t := TypePrecedence(Bool, last);
      assert NotAbove([Bool, last][1], t) && (t == [Bool, last][0] || t == [Bool, last][1]);
      BoolIsLowest(last);
    }
  }

  lemma NotAboveOn(a: Ty, b: Ty, c: Ty)
    requires NotAbove(a, b) && NotAbove(b, c)
    ensures NotAbove(a, c)
  {
  }

  lemma BoolIsLowest(a: Ty)
    ensures NotAbove(a, Bool) ==> a == Bool
  {
  }

  /** The types of the expressions of a list. */
  ghost predicate TypesAre(fs: Functions, es: Exprs, env: Env, ts: seq<Ty>) {
    |ts| == Length(es) &&
    forall i: nat | i < |ts| :: Check(fs, NthExpr(es, i), env).Typed? && Check(fs, NthExpr(es, i), env).ty == ts[i]
  }

  lemma {:induction false} ConvertEachIs(ops: Ops, ts: seq<Ty>, to: Ty, ns: seq<int>)
    requires |ts| == |ns|
    ensures forall i | 0 <= i < |ns| :: ConvertEach(ops, ts, to, ns)[i] == Convert(ops, ts[i], to, ns[i])
  {
    hide Convert;
    if |ns| > 0 { ConvertEachIs(ops, ts[..|ts| - 1], to, ns[..|ns| - 1]); }
  }

  /** A pack of several expressions is accepted when all are scalars; its elements are their values, converted to
      the highest of their types. */
  lemma PackMeaning(cx: Context, es: Exprs, env: Env, st: State, ts: seq<Ty>)
    requires Length(es) > 1 && TypesAre(cx.functions, es, env, ts)
    ensures var e := ArrayPack(es);
            var a := EvalArgs(cx, es, env, st);
            var r := Eval(cx, e, env, st);
            if forall t | t in ts :: IsNumber(t) then
              exists t :: IsHighest(t, ts) && Check(cx.functions, e, env) == Typed(Vec(t, |ts|), false) &&
                r.st == a.st && r.v.Arr? && |r.v.ns| == |ts| &&
                forall i | 0 <= i < |ts| :: r.v.ns[i] == Convert(cx.ops, ts[i], t, Read(a.st, a.vs[i]))
            else Check(cx.functions, e, env) == Ill
  {
    hide Check, CheckArgs, EvalArgs, IsNumber, IsList, Convert, PackType, ConvertEach, IsHighest, Read, AllScalars;
    PackArgs(cx.functions, es, env, ts);
    var e := ArrayPack(es);
    var a := EvalArgs(cx, es, env, st);
    PackChecks(cx.functions, es, env);
    if forall t | t in ts :: IsNumber(t) {
      PackTypeLaw(ts);
      PackEvals(cx, es, env, st, ts);
      ConvertEachIs(cx.ops, ts, PackType(ts), ReadEach(a.st, a.vs));
    }
  }

  lemma PackChecks(fs: Functions, es: Exprs, env: Env)
    requires Length(es) > 1
    ensures var ts := CheckArgs(fs, es, env);
            Check(fs, ArrayPack(es), env) == if ts.Some? && AllScalars(ts.value) then
              Typed(Vec(PackType(ElementTypes(ts.value)), |ts.value|), false) else Ill
  {
    hide CheckArgs, AllScalars, PackType, ElementTypes;
  }

  lemma PackArgs(fs: Functions, es: Exprs, env: Env, ts: seq<Ty>)
    requires TypesAre(fs, es, env, ts)
    ensures var as1 := CheckArgs(fs, es, env);
            (as1.Some? && AllScalars(as1.value)) <==> forall t | t in ts :: IsNumber(t)
    ensures var as1 := CheckArgs(fs, es, env);
            as1.Some? && AllScalars(as1.value) ==> ElementTypes(as1.value) == ts
  {
    hide Check, CheckArgs;
    ArgsLaw(fs, es, env);
    ScalarsAreNumbers();
    var as1 := CheckArgs(fs, es, env);
    if as1.Some? && AllScalars(as1.value) {
      forall i | 0 <= i < |ts| ensures IsNumber(ts[i]) && ElementType(as1.value[i]) == ts[i] {
        assert as1.value[i] in as1.value;
      }
    }
    if forall t | t in ts :: IsNumber(t) {
      forall i: nat | i < Length(es) ensures CanPass(fs, NthExpr(es, i), env) { assert ts[i] in ts; }
      forall i | 0 <= i < |ts| ensures IsScalarValue(as1.value[i]) { assert ts[i] in ts; }
    }
  }

  lemma PackEvals(cx: Context, es: Exprs, env: Env, st: State, ts: seq<Ty>)
    requires Length(es) > 1 && TypesAre(cx.functions, es, env, ts) && |ts| == Length(es)
    requires (forall t | t in ts :: IsNumber(t)) && forall t | t in ts :: t.IsScalar()
    ensures var a := EvalArgs(cx, es, env, st);
            Eval(cx, ArrayPack(es), env, st) ==
            Result(a.st, Arr(ConvertEach(cx.ops, ts, PackType(ts), ReadEach(a.st, a.vs))))
  {
    hide CheckArgs, EvalArgs, ConvertEach, PackType, TypesAre, AllScalars, IsNumber;
    PackArgs(cx.functions, es, env, ts);
  }

  // ---------------------------------------------------------------------------------------
  // Calls

  /** The number of cells under any number of pointers. */
  function CellCount(t: ArgTy): nat {
    match t
    case Pointer(p) => CellCount(p)
    case ByValue(Vec(_, n)) => n
    case ByValue(_) => 1
  }

  lemma {:induction false} CellCountIs(t: ArgTy)
    ensures SizeBehind(t) == CellCount(t)
  {
    if t.Pointer? { CellCountIs(t.pointee); }
  }

  /** Argument i is a pointer to a cell that its parameter lets the function write. */
  predicate MayWrite(params: seq<Parameter>, vs: seq<Value>, i: nat, b: Address)
    requires |params| == |vs| && i < |vs|
  {
    vs[i].Ptr? && !params[i].readOnly && b.slot == vs[i].a.slot && 0 <= b.cell < CellCount(params[i].ty)
  }

  /** Argument i is the last among n that lets the function write a cell. */
  ghost predicate IsLastWriter(params: seq<Parameter>, vs: seq<Value>, n: nat, i: nat, b: Address)
    requires n <= |params| == |vs|
  {
    i < n && MayWrite(params, vs, i, b) && forall j: nat | i < j < n :: !MayWrite(params, vs, j, b)
  }

  ghost predicate NoWriter(params: seq<Parameter>, vs: seq<Value>, n: nat, b: Address)
    requires n <= |params| == |vs|
  {
    forall i: nat | i < n :: !MayWrite(params, vs, i, b)
  }

  /** A cell that no argument lets the function write is as it was; otherwise the last such argument counts. */
  ghost predicate PutIs(params: seq<Parameter>, vs: seq<Value>, n: nat, cells: (nat, nat) -> int, before: Memory,
                        after: Memory, b: Address)
    requires n <= |params| == |vs|
  {
    && (NoWriter(params, vs, n, b) ==> Get(after, b) == Get(before, b))
    && forall i: nat | IsLastWriter(params, vs, n, i, b) :: Get(after, b) == cells(i, b.cell)
  }

  lemma {:induction false} PutLaw(params: seq<Parameter>, vs: seq<Value>, cells: (nat, nat) -> int, mem: Memory, n: nat,
                                  b: Address)
    requires n <= |vs| == |params|
    ensures PutIs(params, vs, n, cells, mem, PutBehind(params, vs, cells, mem, n), b)
    decreases n
  {
    if n > 0 {
      PutLaw(params, vs, cells, mem, n - 1, b);
      PutOne(params, vs, cells, mem, n - 1, b);
      PutOn(params, vs, n - 1, cells, mem, PutBehind(params, vs, cells, mem, n - 1),
            PutBehind(params, vs, cells, mem, n), b);
    }
  }

  lemma PutOn(params: seq<Parameter>, vs: seq<Value>, n: nat, cells: (nat, nat) -> int, before: Memory, mid: Memory,
              after: Memory, b: Address)
    requires n < |params| == |vs| && PutIs(params, vs, n, cells, before, mid, b)
    requires Get(after, b) == if MayWrite(params, vs, n, b) then cells(n, b.cell) else Get(mid, b)
    ensures PutIs(params, vs, n + 1, cells, before, after, b)
  {
    hide Get;
    forall i: nat | IsLastWriter(params, vs, n + 1, i, b)
      ensures if MayWrite(params, vs, n, b) then i == n else IsLastWriter(params, vs, n, i, b)
    {
    }
    assert NoWriter(params, vs, n + 1, b) ==> !MayWrite(params, vs, n, b) && NoWriter(params, vs, n, b);
  }

  lemma PutOne(params: seq<Parameter>, vs: seq<Value>, cells: (nat, nat) -> int, mem: Memory, i: nat, b: Address)
    requires i < |vs| == |params|
    ensures Get(PutBehind(params, vs, cells, mem, i + 1), b) ==
            if MayWrite(params, vs, i, b) then cells(i, b.cell) else Get(PutBehind(params, vs, cells, mem, i), b)
  {
    CellCountIs(params[i].ty);
    var before := PutBehind(params, vs, cells, mem, i);
    if vs[i].Ptr? && !params[i].readOnly {
      SetOne(before, vs[i].a.slot, seq(SizeBehind(params[i].ty), cell requires 0 <= cell => cells(i, cell)), b);
    }
  }

  lemma SetOne(mem: Memory, slot: nat, ns: seq<int>, b: Address)
    ensures Get(SetCells(mem, slot, ns), b) == if b.slot == slot && 0 <= b.cell < |ns| then ns[b.cell] else Get(mem, b)
  {
    if b.slot == slot && 0 <= b.cell < |ns| { assert b == Address(slot, b.cell); }
  }

  /** What lies behind the arguments that are pointers. */
  ghost predicate BehindIs(params: seq<Parameter>, vs: seq<Value>, mem: Memory, behind: seq<seq<int>>)
    requires |params| == |vs|
  {
    |behind| == |vs| &&
    forall i: nat | i < |vs| ::
      |behind[i]| == (if vs[i].Ptr? then CellCount(params[i].ty) else 0) &&
      forall j: nat | j < |behind[i]| :: vs[i].Ptr? && behind[i][j] == Get(mem, Address(vs[i].a.slot, j))
  }

  /** A call is given what lies behind its pointers. It changes the external state, and of memory exactly the cells
      behind the pointers that are not read-only, of which the last one counts; arrays are returned whole. */
  lemma CallLaw(ops: Ops, sig: Signature, vs: seq<Value>, st: State, behind: seq<seq<int>>)
    requires |sig.params| == |vs| && BehindIs(sig.params, vs, st.mem, behind)
    ensures var c := ops.call(sig, vs, behind, st.ext);
            var r := CallEffect(ops, sig, vs, st);
            && r.st.ext == c.ext
            && (if IsList(sig.result) then r.v == Arr(seq(sig.result.size, c.result)) else r.v == Num(c.result(0)))
            && forall b: Address :: PutIs(sig.params, vs, |vs|, c.cells, st.mem, r.st.mem, b)
  {
    hide PutBehind, PutIs;
    BehindLaw(sig.params, vs, st.mem, behind);
    ScalarsAreNumbers();
    var c := ops.call(sig, vs, behind, st.ext);
    forall b: Address
      ensures PutIs(sig.params, vs, |vs|, c.cells, st.mem, PutBehind(sig.params, vs, c.cells, st.mem, |vs|), b)
    {
      PutLaw(sig.params, vs, c.cells, st.mem, |vs|, b);
    }
  }

  lemma BehindLaw(params: seq<Parameter>, vs: seq<Value>, mem: Memory, behind: seq<seq<int>>)
    requires |params| == |vs| && BehindIs(params, vs, mem, behind)
    ensures Behind(params, vs, mem) == behind
  {
    forall i: nat | i < |vs| ensures Behind(params, vs, mem)[i] == behind[i] {
      CellCountIs(params[i].ty);
    }
  }

  /** How an argument is passed. A scalar is loaded and, if the overload only matched implicitly, cast: to bool by a
      test against zero. An array is passed as it is, or as a new array of converted elements. */
  ghost predicate PassedIs(ops: Ops, implicit: bool, st: State, to: ArgTy, from: ArgTy, u: Value, v: Value) {
    match from
    case ByValue(a) =>
      if implicit then
        to.ByValue? ==>
          v == Num(if to.ty == Bool then Truth(ops, a, Read(st, u)) else Convert(ops, a, to.ty, Read(st, u)))
      else v == Num(Read(st, u))
    case Pointer(ByValue(Vec(a, n))) =>
      if !implicit then v == u
      else if to.Pointer? && to.pointee.ByValue? && to.pointee.ty.Vec? then
        if to.pointee.ty.elem == a then v == u
        else
          forall xs | Amounts(st, u, Vec(a, n), xs) :: |xs| == n && v == Arr(Converted(ops, a, to.pointee.ty.elem, xs))
      else true
    case _ => true
  }

  lemma {:induction false} CastArgsAt(ops: Ops, implicit: bool, params: seq<Parameter>, ts: seq<ArgTy>, vs: seq<Value>,
                                      mem: Memory, i: nat)
    requires i < |params| == |ts| == |vs|
    ensures CastArgs(ops, implicit, params, ts, vs, mem)[i] ==
            if implicit then CastArg(ops, params[i].ty, ts[i], vs[i], mem) else vs[i]
    decreases i
  {
    if i > 0 { CastArgsAt(ops, implicit, params[1..], ts[1..], vs[1..], mem, i - 1); }
  }

  lemma PassedNumber(ops: Ops, implicit: bool, st: State, to: ArgTy, a: Ty, u: Value)
    requires IsNumber(a)
    ensures var w := Rvalue(st, u, a);
            PassedIs(ops, implicit, st, to, ByValue(a), u,
                     if implicit then CastArg(ops, to, ByValue(a), w, st.mem) else w)
  {
  }

  lemma PassedList(ops: Ops, implicit: bool, st: State, to: ArgTy, a: Ty, u: Value)
    requires IsList(a)
    ensures var w := Rvalue(st, u, a);
            PassedIs(ops, implicit, st, to, Pointer(ByValue(a)), u,
                     if implicit then CastArg(ops, to, Pointer(ByValue(a)), w, st.mem) else w)
  {
    hide Amounts, Converted, IsNumber, Convert;
    ScalarsAreNumbers();
    assert a == Vec(a.elem, a.size) && ElementType(ByValue(a)) == a;
    if to.Pointer? && to.pointee.ByValue? { assert ElementType(to.pointee) == to.pointee.ty; }
    if implicit && to.Pointer? && to.pointee.ByValue? && to.pointee.ty.Vec? && to.pointee.ty.elem != a.elem {
      forall xs | Amounts(st, u, a, xs)
        ensures |xs| == a.size && CastArg(ops, to, Pointer(ByValue(a)), u, st.mem) ==
                                  Arr(Converted(ops, a.elem, to.pointee.ty.elem, xs))
      {
        CastCellsAre(ops, a.elem, to.pointee.ty.elem, st, u, a, xs, a.size);
        var ys := Converted(ops, a.elem, to.pointee.ty.elem, xs);
        assert ys[..a.size] == ys;
      }
    }
  }

  /** The arguments of a call, once all of them have been evaluated. */
  ghost predicate PassedAre(cx: Context, r: Resolution, ts: seq<ArgTy>, a: Results, vs: seq<Value>) {
    && r.target.Some? && |vs| == |ts| == |a.vs| == |r.target.value.params|
    && forall i | 0 <= i < |vs| ::
         PassedIs(cx.ops, r.kind == Implicit, a.st, r.target.value.params[i].ty, ts[i], a.vs[i], vs[i])
  }

  /** A call is accepted when its arguments can be passed and its group has an overload for their types; the
      overload is called on the arguments in the state after all have been evaluated. */
  lemma CallMeaning(cx: Context, f: string, es: Exprs, env: Env, st: State, ts: seq<ArgTy>)
    requires ArgsAre(cx.functions, es, env, ts) && f in cx.functions
    ensures var e := Call(f, es);
            var r := Resolve(cx.functions[f], ts);
            var a := EvalArgs(cx, es, env, st);
            if r.target.None? then Check(cx.functions, e, env) == Ill
            else
              && Check(cx.functions, e, env) == Typed(r.target.value.result, false)
              && exists vs :: PassedAre(cx, r, ts, a, vs) &&
                              Eval(cx, e, env, st) == CallEffect(cx.ops, r.target.value, vs, a.st)
  {
    hide Resolve, CallEffect, PassedIs, CheckArgs, EvalArgs, ArgsAre, CastArgs, Rvalues;
    OneTyping(cx.functions, es, env, ts);
    var r := Resolve(cx.functions[f], ts);
    var a := EvalArgs(cx, es, env, st);
    if r.target.Some? {
      ResolveFits(cx.functions[f], ts);
      CheckArgsShape(cx.functions, es, env);
      var ws := Rvalues(a.st, a.vs, ts);
      var vs := CastArgs(cx.ops, r.kind == Implicit, r.target.value.params, ts, ws, a.st.mem);
      forall i: nat | i < |vs|
        ensures PassedIs(cx.ops, r.kind == Implicit, a.st, r.target.value.params[i].ty, ts[i], a.vs[i], vs[i])
      {
        CastArgsAt(cx.ops, r.kind == Implicit, r.target.value.params, ts, ws, a.st.mem, i);
        PassedAt(cx, es, env, r, ts, a, i);
      }
      assert PassedAre(cx, r, ts, a, vs);
      CallEvals(cx, f, es, env, st, ts);
    }
  }

  lemma CallEvals(cx: Context, f: string, es: Exprs, env: Env, st: State, ts: seq<ArgTy>)
    requires f in cx.functions && CheckArgs(cx.functions, es, env) == Some(ts)
    requires Resolve(cx.functions[f], ts).target.Some? && |ts| == Length(es)
    requires |Resolve(cx.functions[f], ts).target.value.params| == |ts|
    ensures var r := Resolve(cx.functions[f], ts);
            var a := EvalArgs(cx, es, env, st);
            Eval(cx, Call(f, es), env, st) ==
            CallEffect(cx.ops, r.target.value,
                       CastArgs(cx.ops, r.kind == Implicit, r.target.value.params, ts, Rvalues(a.st, a.vs, ts),
                                a.st.mem), a.st)
  {
    hide Resolve, CallEffect, CheckArgs, EvalArgs, CastArgs, Rvalues;
  }

  lemma OneTyping(fs: Functions, es: Exprs, env: Env, ts: seq<ArgTy>)
    requires ArgsAre(fs, es, env, ts)
    ensures CheckArgs(fs, es, env) == Some(ts) && |ts| == Length(es)
  {
    hide Check, CheckArgs;
    ArgsLaw(fs, es, env);
    forall i: nat | i < Length(es) ensures CanPass(fs, NthExpr(es, i), env) {}
    var us := CheckArgs(fs, es, env).value;
    assert us == ts;
  }

  lemma PassedAt(cx: Context, es: Exprs, env: Env, r: Resolution, ts: seq<ArgTy>, a: Results, i: nat)
    requires ArgsAre(cx.functions, es, env, ts) && i < |ts| == |a.vs| && r.target.Some?
    requires |r.target.value.params| == |ts|
    ensures var implicit := r.kind == Implicit;
            var to := r.target.value.params[i].ty;
            var w := Rvalues(a.st, a.vs, ts)[i];
            PassedIs(cx.ops, implicit, a.st, to, ts[i], a.vs[i],
                     if implicit then CastArg(cx.ops, to, ts[i], w, a.st.mem) else w)
  {
    hide PassedIs, CastArg, Check, Rvalue;
    var t := Check(cx.functions, NthExpr(es, i), env).ty;
    assert ElementType(ts[i]) == t;
    if IsNumber(t) {
      PassedNumber(cx.ops, r.kind == Implicit, a.st, r.target.value.params[i].ty, t, a.vs[i]);
    } else {
      PassedList(cx.ops, r.kind == Implicit, a.st, r.target.value.params[i].ty, t, a.vs[i]);
    }
  }

  /** A call with an argument that cannot be passed, or of a function that is not registered, is rejected. */
  lemma CallRejected(fs: Functions, f: string, es: Exprs, env: Env)
    ensures f !in fs || !AllPassable(fs, es, env) ==> Check(fs, Call(f, es), env) == Ill
  {
    hide AllPassable, ArgsAre;
    ArgsLaw(fs, es, env);
  }
}
