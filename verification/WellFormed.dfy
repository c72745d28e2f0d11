/**
Everything the code generator produces is well formed: an induction over the syntax tree that puts
the pieces of `CfgShape` together.
*/
module WellFormed {
  import opened Types
  import opened Ast
  import opened Overloads
  import opened Semantics
  import opened Cfg
  import opened Lowering
  import opened Frames
  import opened CfgShape

  // ---------------------------------------------------------------------------------------
  // Straight-line pieces

  lemma LoadedStraight(h: Gen, k: Gen, v: Val)
    requires Straight(h, k)
    ensures Straight(h, Loaded(k, v).g)
  {
    hide Straight, EmitDef;
    StraightEmit(h, k, Load(k.regs, v.o));
  }

  lemma ConvertedStraight(h: Gen, k: Gen, o: Operand, from: Ty, to: Ty)
    requires Straight(h, k)
    ensures Straight(h, Converted(k, o, from, to).g)
  {
    hide Straight, EmitDef;
    StraightEmit(h, k, Conv(k.regs, from, to, o));
  }

  lemma TestedStraight(h: Gen, k: Gen, o: Operand, ty: Ty)
    requires Straight(h, k)
    ensures Straight(h, Tested(k, o, ty).g)
  {
    hide Straight, EmitDef;
    StraightEmit(h, k, Test(k.regs, ty, o));
  }

  lemma CastStraight(h: Gen, k: Gen, o: Operand, from: Ty, to: Ty)
    requires Straight(h, k)
    ensures Straight(h, CastTo(k, o, from, to).g)
  {
    hide Straight, Tested, Converted;
    TestedStraight(h, k, o, from);
    ConvertedStraight(h, k, o, from, to);
  }

  lemma TakenStraight(h: Gen, k: Gen, v: Val)
    requires Straight(h, k)
    ensures Straight(h, Taken(k, v).g)
  {
    hide Straight, Loaded;
    LoadedStraight(h, k, v);
  }

  lemma ElementStraight(h: Gen, k: Gen, o: Operand, ty: Ty, i: nat)
    requires Straight(h, k)
    ensures Straight(h, EmitElement(k, o, ty, i).g)
  {
    hide Straight, EmitDef;
    StraightEmit(h, k, Element(k.regs, o, i));
  }

  lemma ArithStraight(h: Gen, k: Gen, op: BinOp, t: Ty, a: Operand, lt: Ty, b: Operand, rt: Ty)
    requires Straight(h, k)
    ensures Straight(h, EmitArith(k, op, t, a, lt, b, rt).g)
  {
    hide Straight, Converted, EmitDef;
    var p := Converted(k, a, lt, t);
    var q := Converted(p.g, b, rt, t);
    ConvertedStraight(h, k, a, lt, t);
    ConvertedStraight(h, p.g, b, rt, t);
    StraightEmit(h, q.g, Arith(q.g.regs, op, t, p.o, q.o));
  }

  lemma {:induction false} ElementsStraight(h: Gen, k: Gen, op: BinOp, t: Ty, a: Operand, lt: Ty, b: Operand, rt: Ty,
      size: nat)
    requires Straight(h, k)
    ensures Straight(h, EmitElements(k, op, t, a, lt, b, rt, size).g)
    decreases size
  {
    hide Straight, EmitElement, EmitArith;
    if size > 0 {
      var es := EmitElements(k, op, t, a, lt, b, rt, size - 1);
      var x := EmitElement(es.g, a, lt, size - 1);
      var y := EmitElement(x.g, b, rt, size - 1);
      ElementsStraight(h, k, op, t, a, lt, b, rt, size - 1);
      ElementStraight(h, es.g, a, lt, size - 1);
      ElementStraight(h, x.g, b, rt, size - 1);
      ArithStraight(h, y.g, op, t, x.o, ElementOf(lt), y.o, ElementOf(rt));
    }
  }

  lemma {:induction false} ReduceStraight(h: Gen, k: Gen, op: BinOp, os: seq<Operand>)
    requires Straight(h, k)
    ensures Straight(h, EmitReduce(k, op, os).g)
    decreases |os|
  {
    hide Straight, EmitDef;
    if |os| > 1 {
      var r := EmitReduce(k, op, os[..|os| - 1]);
      ReduceStraight(h, k, op, os[..|os| - 1]);
      StraightEmit(h, r.g, Arith(r.g.regs, ReduceOp(op), Bool, r.o, os[|os| - 1]));
    }
  }

  lemma ZipStraight(h: Gen, k: Gen, op: BinOp, t: Ty, a: Operand, lt: Ty, b: Operand, rt: Ty, size: nat)
    requires Straight(h, k)
    ensures Straight(h, EmitZip(k, op, t, a, lt, b, rt, size).g)
  {
    hide Straight, EmitElements, EmitReduce, EmitDef;
    var es := EmitElements(k, op, t, a, lt, b, rt, size);
    ElementsStraight(h, k, op, t, a, lt, b, rt, size);
    ReduceStraight(h, es.g, op, es.os);
    StraightEmit(h, es.g, Pack(es.g.regs, es.os));
  }

  lemma {:induction false} UnpackedStraight(h: Gen, k: Gen, o: Operand, size: nat)
    requires Straight(h, k)
    ensures Straight(h, Unpacked(k, o, size).g)
    decreases size
  {
    hide Straight, EmitDef;
    if size > 0 {
      var es := Unpacked(k, o, size - 1);
      UnpackedStraight(h, k, o, size - 1);
      StraightEmit(h, es.g, Element(es.g.regs, o, size - 1));
    }
  }

  lemma {:induction false} EachStraight(h: Gen, k: Gen, op: UnOp, elem: Ty, os: seq<Operand>)
    requires Straight(h, k)
    ensures Straight(h, EmitEach(k, op, elem, os).g)
    decreases |os|
  {
    hide Straight, EmitDef;
    if |os| > 0 {
      var es := EmitEach(k, op, elem, os[..|os| - 1]);
      EachStraight(h, k, op, elem, os[..|os| - 1]);
      StraightEmit(h, es.g, Negate(es.g.regs, op, elem, os[|os| - 1]));
    }
  }

  lemma UnaryEachStraight(h: Gen, k: Gen, op: UnOp, ty: Ty, o: Operand)
    requires ty.IsArray() && Straight(h, k)
    ensures Straight(h, EmitUnaryEach(k, op, ty, o).g)
  {
    hide Straight, Unpacked, EmitEach, EmitDef;
    var x := Unpacked(k, o, ty.size);
    var y := EmitEach(x.g, op, ty.elem, x.os);
    UnpackedStraight(h, k, o, ty.size);
    EachStraight(h, x.g, op, ty.elem, x.os);
    StraightEmit(h, y.g, Pack(y.g.regs, y.os));
  }

  lemma {:induction false} CellsStraight(h: Gen, k: Gen, target: Operand, elem: Ty, o: Operand, ty: Ty, size: nat)
    requires Straight(h, k)
    ensures Straight(h, EmitCells(k, target, elem, o, ty, size))
    decreases size
  {
    hide Straight, EmitDef, EmitElement, Converted, Emit;
    if size > 0 {
      var before := EmitCells(k, target, elem, o, ty, size - 1);
      CellsStraight(h, k, target, elem, o, ty, size - 1);
      var gep := Gep(before.regs, target, Const(size - 1));
      var l := EmitDef(before, gep);
      var r := EmitElement(l.g, o, ty, size - 1);
      var c := Converted(r.g, r.o, ElementOf(ty), elem);
      StraightEmit(h, before, gep);
      ElementStraight(h, l.g, o, ty, size - 1);
      ConvertedStraight(h, r.g, r.o, ElementOf(ty), elem);
      StraightEmit(h, c.g, Store(l.o, c.o));
    }
  }

  lemma BinaryStraight(h: Gen, k: Gen, op: BinOp, a: Val, b: Val)
    requires Straight(h, k)
    ensures var m := EmitBinary(k, op, a, b); m.Made? ==> Straight(h, m.g)
  {
    hide Straight, Taken, Promoted, EmitOperator, Promotion;
    var lt, rt := Promotion(a.ty, b.ty), Promotion(b.ty, a.ty);
    var x := Taken(k, a);
    var y := Taken(x.g, b);
    var p := Promoted(y.g, x.o, a.ty, lt);
    var q := Promoted(p.g, y.o, b.ty, rt);
    TakenStraight(h, k, a);
    TakenStraight(h, x.g, b);
    PromotedStraight(h, y.g, x.o, a.ty, lt);
    PromotedStraight(h, p.g, y.o, b.ty, rt);
    OperatorStraight(h, q.g, op, p.o, lt, q.o, rt);
  }

  lemma PromotedStraight(h: Gen, k: Gen, o: Operand, from: Ty, to: Ty)
    requires Straight(h, k)
    ensures Straight(h, Promoted(k, o, from, to).g)
  {
    hide Straight, Converted, EmitDef;
    if from != to && to.Vec? {
      var c := Converted(k, o, from, to.elem);
      ConvertedStraight(h, k, o, from, to.elem);
      StraightEmit(h, c.g, Pack(c.g.regs, Spread(c.o, Const(0), to.size)));
    }
  }

  lemma OperatorStraight(h: Gen, k: Gen, op: BinOp, a: Operand, lt: Ty, b: Operand, rt: Ty)
    requires Straight(h, k)
    ensures var m := EmitOperator(k, op, a, lt, b, rt); m.Made? ==> Straight(h, m.g)
  {
    hide Straight, EmitArrayCast, EmitDef, EmitZip, EmitArith, IsElementwise;
    if IsProduct(op, lt, rt) {
      var t := ProductElem(lt, rt);
      var x := EmitArrayCast(k, a, lt.elem, t, lt.size);
      var y := EmitArrayCast(x.g, b, rt.elem, t, rt.size);
      ArrayCastStraight(h, k, a, lt.elem, t, lt.size);
      ArrayCastStraight(h, x.g, b, rt.elem, t, rt.size);
      StraightEmit(h, y.g, Product(y.g.regs, t, x.o, lt.size, y.o, rt.size, ProductSize(lt, rt)));
    } else {
      match OperandType(op, lt, rt)
      case None =>
      case Some(t) =>
        ZipStraight(h, k, op, t, a, lt, b, rt, ZipSize(lt, rt));
        ArithStraight(h, k, op, t, a, lt, b, rt);
    }
  }

  lemma AssignStraight(h: Gen, k: Gen, target: Val, o: Operand, ty: Ty)
    requires Straight(h, k)
    ensures var r := EmitAssign(k, target, o, ty); r.Some? ==> Straight(h, r.value)
  {
    hide Straight, Converted, EmitBinary, EmitCells, Emit, Promoted;
    if CanAssign(StaticOf(target), ty) {
      if target.ty.IsArray() {
        var from := Promotion(ty, target.ty);
        var p := Promoted(k, o, ty, from);
        PromotedStraight(h, k, o, ty, from);
        CellsStraight(h, p.g, target.o, target.ty.elem, p.o, from, target.ty.size);
      } else if target.ty == Bool {
        var zero := Val(Const(0), Int32, false);
        var m := EmitBinary(k, NotEquals, zero, Val(o, ty, false));
        BinaryStraight(h, k, NotEquals, zero, Val(o, ty, false));
        if m.Made? { StraightEmit(h, m.g, Store(target.o, m.v.o)); }
      } else {
        var c := Converted(k, o, ty, target.ty);
        ConvertedStraight(h, k, o, ty, target.ty);
        StraightEmit(h, c.g, Store(target.o, c.o));
      }
    }
  }

  lemma {:induction false} LoadAllStraight(h: Gen, k: Gen, vs: seq<Val>)
    requires Straight(h, k)
    ensures Straight(h, LoadAll(k, vs).g)
    decreases |vs|
  {
    hide Straight, Taken;
    if |vs| > 0 {
      TakenStraight(h, k, vs[|vs| - 1]);
      LoadAllStraight(h, Taken(k, vs[|vs| - 1]).g, vs[..|vs| - 1]);
    }
  }

  lemma {:induction false} CastCellsStraight(h: Gen, k: Gen, o: Operand, from: Ty, to: Ty, size: nat)
    requires Straight(h, k)
    ensures Straight(h, EmitCastCells(k, o, from, to, size).g)
    decreases size
  {
    hide Straight, EmitDef;
    if size > 0 {
      var es := EmitCastCells(k, o, from, to, size - 1);
      var l := EmitDef(es.g, Element(es.g.regs, o, size - 1));
      CastCellsStraight(h, k, o, from, to, size - 1);
      StraightEmit(h, es.g, Element(es.g.regs, o, size - 1));
      StraightEmit(h, l.g, Conv(l.g.regs, from, to, l.o));
    }
  }

  lemma ArrayCastStraight(h: Gen, k: Gen, o: Operand, from: Ty, to: Ty, size: nat)
    requires Straight(h, k)
    ensures Straight(h, EmitArrayCast(k, o, from, to, size).g)
  {
    hide Straight, EmitDef, EmitCastCells;
    if from != to {
      var es := EmitCastCells(k, o, from, to, size);
      CastCellsStraight(h, k, o, from, to, size);
      StraightEmit(h, es.g, Pack(es.g.regs, es.os));
    }
  }

  lemma ArgStraight(h: Gen, k: Gen, to: ArgTy, from: ArgTy, o: Operand)
    requires Straight(h, k)
    ensures Straight(h, EmitArg(k, to, from, o).g)
  {
    hide Straight, EmitArrayCast, CastTo;
    if !from.Pointer? { CastStraight(h, k, o, ElementType(from), ElementType(to)); }
    else {
      ArrayCastStraight(h, k, o, ElementOf(ElementType(from)), ElementOf(ElementType(to)), SizeBehind(from));
    }
  }

  lemma {:induction false} CastAllStraight(h: Gen, k: Gen, params: seq<Parameter>, ts: seq<ArgTy>, os: seq<Operand>)
    requires |params| == |ts| == |os| && Straight(h, k)
    ensures Straight(h, CastAll(k, params, ts, os).g)
    decreases |os|
  {
    hide Straight, EmitArg;
    if |os| > 0 {
      var x := EmitArg(k, params[0].ty, ts[0], os[0]);
      ArgStraight(h, k, params[0].ty, ts[0], os[0]);
      CastAllStraight(h, x.g, params[1..], ts[1..], os[1..]);
    }
  }

  lemma CallStraight(h: Gen, group: seq<Signature>, k: Gen, vs: seq<Val>)
    requires Straight(h, k)
    ensures var m := EmitCall(group, k, vs); m.Made? ==> Straight(h, m.g)
  {
    hide Straight, LoadAll, CastAll, EmitDef, Resolve;
    var ts := ArgTypes(vs);
    var r := Resolve(group, ts);
    if r.target.Some? {
      ResolveFits(group, ts);
      var x := LoadAll(k, vs);
      LoadAllStraight(h, k, vs);
      var y := if r.kind == Implicit then CastAll(x.g, r.target.value.params, ts, x.os) else x;
      if r.kind == Implicit { CastAllStraight(h, x.g, r.target.value.params, ts, x.os); }
      StraightEmit(h, y.g, Invoke(y.g.regs, r.target.value, y.os));
    }
  }

  lemma AddOneStraight(h: Gen, k: Gen, v: Val, increment: bool)
    requires Straight(h, k)
    ensures Straight(h, AddOne(k, v, increment).g)
  {
    hide Straight, Loaded, Converted, EmitDef, Emit;
    var x := Loaded(k, v);
    var o := Const(if increment then 1 else -1);
    var one := Converted(x.g, o, Int32, v.ty);
    var i := Arith(one.g.regs, Plus, v.ty, x.o, one.o);
    LoadedStraight(h, k, v);
    ConvertedStraight(h, x.g, o, Int32, v.ty);
    StraightEmit(h, one.g, i);
    StraightEmit(h, EmitDef(one.g, i).g, Store(v.o, EmitDef(one.g, i).o));
  }

  lemma LoadTestStraight(h: Gen, v: Val)
    ensures var l := Loaded(h, v);
            var t := Tested(l.g, l.o, v.ty);
            Straight(h, t.g) && t.g.ip == h.ip && |t.g.blocks| == |h.blocks|
  {
    hide Straight, Loaded, Tested;
    StraightSelf(h);
    LoadedStraight(h, h, v);
    var l := Loaded(h, v);
    TestedStraight(h, l.g, l.o, v.ty);
    StraightIp(h, Tested(l.g, l.o, v.ty).g);
  }

  lemma StraightIp(h: Gen, k: Gen)
    requires Straight(h, k)
    ensures k.ip == h.ip && |k.blocks| == |h.blocks|
  {
  }

  // ---------------------------------------------------------------------------------------
  // Expressions

  /** Code that extends an orderly function by an expression. */
  lemma {:induction false} ThenLower(fs: Functions, e: Expr, env: Env, g: Gen, h: Gen, x: Option<Exits>, open: set<nat>)
    requires Tidy(g, h, x, open) && !Lower(fs, e, env, h).Fail?
    ensures var m := Lower(fs, e, env, h);
            Tidy(g, m.g, x, open) && forall d: nat | d < |h.blocks| :: Preds(g, m.g, d) == Preds(g, h, d)
    decreases e, 2
  {
    hide Tidy, Preds, Lower;
    CurrentPlain(g, h, x, open);
    LowerTidy(fs, e, env, h);
    ThenPiece(g, h, x, open, Lower(fs, e, env, h).g, None);
  }

  lemma {:induction false} LowerTidy(fs: Functions, e: Expr, env: Env, g: Gen)
    requires Plain(Code(g, g.ip))
    ensures var m := Lower(fs, e, env, g); !m.Fail? ==> Tidy(g, m.g, None, {})
    decreases e, 1
  {
    hide Tidy, Straight, Plain, Loaded, Taken, Converted, CastTo, EmitDef, EmitBinary, EmitUnaryEach, EmitAssign,
      EmitCall, EmitPack, AddOne, LowerLogical, LowerTernary;
    TidySelf(g, None);
    match e
    case Literal(_, _) =>
    case Local(_) =>
    case Attribute(_, _) =>
    case Component(_, _) => ComponentTidy(fs, e, env, g);
    case MatrixEntry(_, _, _) => EntryTidy(fs, e, env, g);
    case Unary(op, a) =>
      var r := Lower(fs, a, env, g);
      LowerTidy(fs, a, env, g);
      if op != UnaryPlus && r.Made? && r.v.ty.IsArray() {
        StraightSelf(r.g);
        UnaryEachStraight(r.g, r.g, op, r.v.ty, r.v.o);
        ThenStraight(g, r.g, None, {}, EmitUnaryEach(r.g, op, r.v.ty, r.v.o).g);
      } else if op != UnaryPlus && r.Made? && TypeOfUnary(op, r.v.ty).Typed? {
        var wide := if op == LogicalNot then r.v.ty else UnaryType(r.v.ty);
        var x := Loaded(r.g, r.v);
        var y := Converted(x.g, x.o, r.v.ty, wide);
        var i := Negate(y.g.regs, op, wide, y.o);
        StraightSelf(r.g);
        LoadedStraight(r.g, r.g, r.v);
        ConvertedStraight(r.g, x.g, x.o, r.v.ty, wide);
        StraightEmit(r.g, y.g, i);
        ThenStraight(g, r.g, None, {}, EmitDef(y.g, i).g);
      }
    case Binary(_, _, _) => BinaryTidy(fs, e, env, g);
    case Logical(_, _, _) => LogicalTidy(fs, e, env, g);
    case Ternary(_, _, _) => TernaryTidy(fs, e, env, g);
    case Comma(es) => CommaTidy(fs, es, env, g);
    case Assign(_, _, _) => AssignTidy(fs, e, env, g);
    case Crement(v, increment, _) =>
      var a := Lower(fs, v, env, g);
      LowerTidy(fs, v, env, g);
      if a.Made? {
        StraightSelf(a.g);
        AddOneStraight(a.g, a.g, a.v, increment);
        ThenStraight(g, a.g, None, {}, AddOne(a.g, a.v, increment).g);
      }
    case Cast(ty, inner) =>
      var a := Lower(fs, inner, env, g);
      LowerTidy(fs, inner, env, g);
      if a.Made? {
        var x := Loaded(a.g, a.v);
        StraightSelf(a.g);
        LoadedStraight(a.g, a.g, a.v);
        CastStraight(a.g, x.g, x.o, a.v.ty, ty);
        ThenStraight(g, a.g, None, {}, CastTo(x.g, x.o, a.v.ty, ty).g);
      }
    case Call(_, _) => CallTidy(fs, e, env, g);
    case ArrayPack(_) => PackTidy(fs, e, env, g);
  }

  lemma {:induction false} ConvertAllStraight(h: Gen, k: Gen, ts: seq<Ty>, to: Ty, os: seq<Operand>)
    requires |ts| == |os| && Straight(h, k)
    ensures Straight(h, ConvertAll(k, ts, to, os).g)
    decreases |os|
  {
    hide Straight, Converted;
    if |os| > 0 {
      var n := |os| - 1;
      ConvertAllStraight(h, k, ts[..n], to, os[..n]);
      ConvertedStraight(h, ConvertAll(k, ts[..n], to, os[..n]).g, os[n], ts[n], to);
    }
  }

  lemma PackStraight(h: Gen, k: Gen, vs: seq<Val>)
    requires ScalarVals(vs) && Straight(h, k)
    ensures Straight(h, EmitPack(k, vs).g)
  {
    hide Straight, LoadAll, ConvertAll, EmitDef;
    var x := LoadAll(k, vs);
    var ts := ValTypes(vs);
    var y := ConvertAll(x.g, ts, PackType(ts), x.os);
    LoadAllStraight(h, k, vs);
    ConvertAllStraight(h, x.g, ts, PackType(ts), x.os);
    StraightEmit(h, y.g, Pack(y.g.regs, y.os));
  }

  lemma {:induction false} PackTidy(fs: Functions, e: Expr, env: Env, g: Gen)
    requires e.ArrayPack? && Plain(Code(g, g.ip))
    ensures var m := Lower(fs, e, env, g); !m.Fail? ==> Tidy(g, m.g, None, {})
    decreases e, 0
  {
    hide Tidy, Straight, Plain, EmitPack;
    if !Lower(fs, e, env, g).Fail? {
      if e.elements.tail.NoExprs? {
        LowerTidy(fs, e.elements.head, env, g);
      } else {
        var a := LowerArgs(fs, e.elements, env, g);
        ArgsTidy(fs, e.elements, env, g);
        StraightSelf(a.g);
        PackStraight(a.g, a.g, a.vs);
        ThenStraight(g, a.g, None, {}, EmitPack(a.g, a.vs).g);
      }
    }
  }

  lemma EntryStraight(k: Gen, row: Val, column: Val, m: Val)
    ensures Straight(k, EmitEntry(k, row, column, m).g)
  {
    hide Straight, Loaded, EmitDef;
    var x := Loaded(k, row);
    var y := Loaded(x.g, column);
    var mul := Arith(y.g.regs, Multiply, Int32, x.o, Const(Dimension(m.ty)));
    var p := EmitDef(y.g, mul);
    var add := Arith(p.g.regs, Plus, Int32, p.o, y.o);
    var q := EmitDef(p.g, add);
    StraightSelf(k);
    LoadedStraight(k, k, row);
    LoadedStraight(k, x.g, column);
    StraightEmit(k, y.g, mul);
    StraightEmit(k, p.g, add);
    StraightEmit(k, q.g, Gep(q.g.regs, m.o, q.o));
  }

  lemma {:induction false} EntryTidy(fs: Functions, e: Expr, env: Env, g: Gen)
    requires e.MatrixEntry? && Plain(Code(g, g.ip))
    ensures var m := Lower(fs, e, env, g); !m.Fail? ==> Tidy(g, m.g, None, {})
    decreases e, 0
  {
    hide Tidy, Straight, Plain, EmitEntry, TypeOfEntry;
    var m := LowerEntry(fs, e, env, g);
    assert Lower(fs, e, env, g) == m;
    if !m.Fail? {
      var i := Lower(fs, e.row, env, g);
      var j := Lower(fs, e.column, env, i.g);
      var v := Lower(fs, e.matrix, env, j.g);
      LowerTidy(fs, e.row, env, g);
      ThenLower(fs, e.column, env, g, i.g, None, {});
      ThenLower(fs, e.matrix, env, g, j.g, None, {});
      EntryStraight(v.g, i.v, j.v, v.v);
      ThenStraight(g, v.g, None, {}, EmitEntry(v.g, i.v, j.v, v.v).g);
    }
  }

  lemma {:induction false} ComponentTidy(fs: Functions, e: Expr, env: Env, g: Gen)
    requires e.Component? && Plain(Code(g, g.ip))
    ensures var m := Lower(fs, e, env, g); !m.Fail? ==> Tidy(g, m.g, None, {})
    decreases e, 0
  {
    hide Tidy, Straight, Plain, Loaded, EmitDef;
    if !Lower(fs, e, env, g).Fail? {
      var i := Lower(fs, e.index, env, g);
      var v := Lower(fs, e.vec, env, i.g);
      LowerTidy(fs, e.index, env, g);
      ThenLower(fs, e.vec, env, g, i.g, None, {});
      var x := Loaded(v.g, i.v);
      var gep := Gep(x.g.regs, v.v.o, x.o);
      StraightSelf(v.g);
      LoadedStraight(v.g, v.g, i.v);
      StraightEmit(v.g, x.g, gep);
      ThenStraight(g, v.g, None, {}, EmitDef(x.g, gep).g);
    }
  }

  lemma {:induction false} BinaryTidy(fs: Functions, e: Expr, env: Env, g: Gen)
    requires e.Binary? && Plain(Code(g, g.ip))
    ensures var m := Lower(fs, e, env, g); !m.Fail? ==> Tidy(g, m.g, None, {})
    decreases e, 0
  {
    hide Tidy, Straight, Plain, EmitBinary;
    var m := Lower(fs, e, env, g);
    if !m.Fail? {
      var a := Lower(fs, e.lhs, env, g);
      var b := Lower(fs, e.rhs, env, a.g);
      LowerTidy(fs, e.lhs, env, g);
      ThenLower(fs, e.rhs, env, g, a.g, None, {});
      StraightSelf(b.g);
      BinaryStraight(b.g, b.g, e.binOp, a.v, b.v);
      BinaryMade(b.g, e.binOp, a.v, b.v);
      ThenStraight(g, b.g, None, {}, m.g);
    }
  }

  lemma {:induction false} AssignTidy(fs: Functions, e: Expr, env: Env, g: Gen)
    requires e.Assign? && Plain(Code(g, g.ip))
    ensures var m := Lower(fs, e, env, g); !m.Fail? ==> Tidy(g, m.g, None, {})
    decreases e, 0
  {
    hide Tidy, Straight, Plain, EmitBinary, EmitAssign, Taken;
    var m := Lower(fs, e, env, g);
    if !m.Fail? {
      var a := Lower(fs, e.target, env, g);
      var b := Lower(fs, e.source, env, a.g);
      LowerTidy(fs, e.target, env, g);
      ThenLower(fs, e.source, env, g, a.g, None, {});
      StraightSelf(b.g);
      var v := if e.compound.None? then Made(b.g, b.v) else EmitBinary(b.g, e.compound.value, a.v, b.v);
      if e.compound.Some? { BinaryStraight(b.g, b.g, e.compound.value, a.v, b.v); }
      TakenStraight(b.g, v.g, v.v);
      var x := Taken(v.g, v.v);
      AssignStraight(b.g, x.g, a.v, x.o, v.v.ty);
      ThenStraight(g, b.g, None, {}, m.g);
    }
  }

  lemma {:induction false} CommaTidy(fs: Functions, es: Exprs, env: Env, g: Gen)
    requires Plain(Code(g, g.ip))
    ensures var m := LowerComma(fs, es, env, g); !m.Fail? ==> Tidy(g, m.g, None, {})
    decreases es, 1
  {
    hide Tidy, Plain, Lower;
    TidySelf(g, None);
    match es
    case NoExprs =>
    case ConsExpr(e, rest) =>
      LowerTidy(fs, e, env, g);
      var m := Lower(fs, e, env, g);
      var r := LowerComma(fs, rest, env, if m.Made? then m.g else g);
      if m.Made? && rest.ConsExpr? && !r.Fail? {
        CurrentPlain(g, m.g, None, {});
        CommaTidy(fs, rest, env, m.g);
        ThenPiece(g, m.g, None, {}, r.g, None);
      }
  }

  lemma {:induction false} ArgsTidy(fs: Functions, es: Exprs, env: Env, g: Gen)
    requires Plain(Code(g, g.ip))
    ensures var m := LowerArgs(fs, es, env, g); m.Args? ==> Tidy(g, m.g, None, {})
    decreases es, 1
  {
    hide Tidy, Plain, Lower;
    TidySelf(g, None);
    match es
    case NoExprs =>
    case ConsExpr(e, rest) =>
      LowerTidy(fs, e, env, g);
      var m := Lower(fs, e, env, g);
      var r := LowerArgs(fs, rest, env, if m.Made? then m.g else g);
      if m.Made? && r.Args? {
        CurrentPlain(g, m.g, None, {});
        ArgsTidy(fs, rest, env, m.g);
        ThenPiece(g, m.g, None, {}, r.g, None);
      }
  }

  lemma {:induction false} CallTidy(fs: Functions, e: Expr, env: Env, g: Gen)
    requires e.Call? && Plain(Code(g, g.ip))
    ensures var m := Lower(fs, e, env, g); !m.Fail? ==> Tidy(g, m.g, None, {})
    decreases e, 0
  {
    hide Tidy, Plain, Straight, EmitCall;
    ArgsTidy(fs, e.args, env, g);
    var a := LowerArgs(fs, e.args, env, g);
    if e.callee in fs && a.Args? {
      StraightSelf(a.g);
      CallStraight(a.g, fs[e.callee], a.g, a.vs);
      var m := EmitCall(fs[e.callee], a.g, a.vs);
      if m.Made? { ThenStraight(g, a.g, None, {}, m.g); }
    }
  }

  lemma TwoArms(p: nat, q: nat, a: Operand, b: Operand, preds: set<nat>)
    requires p != q && preds == {p, q}
    ensures ArmsMatch([Arm(p, a), Arm(q, b)], preds)
  {
    var arms := [Arm(p, a), Arm(q, b)];
    assert arms[0].pred == p && arms[1].pred == q;
  }

  lemma {:induction false} LogicalTidy(fs: Functions, e: Expr, env: Env, g: Gen)
    requires e.Logical? && Plain(Code(g, g.ip))
    ensures var m := LowerLogical(fs, e, env, g); !m.Fail? ==> Tidy(g, m.g, None, {})
    decreases e, 0
  {
    hide Tidy, Plain, Straight, Preds, Loaded, Tested, EmitDef, Emit, Lower, MayEnter, ArmsMatch, Frame;
    var rhs, ret := |g.blocks|, |g.blocks| + 1;
    var g0 := NewBlock(NewBlock(g, LogicalRhs), LogicalReturn);
    TidySelf(g, None);
    ThenOpen(g, g, None, {}, LogicalRhs);
    ThenOpen(g, NewBlock(g, LogicalRhs), None, {} + {rhs}, LogicalReturn);
    var open := {} + {rhs} + {ret};
    if !LowerLogical(fs, e, env, g).Fail? {
      var a := Lower(fs, e.first, env, g0);
      ThenLower(fs, e.first, env, g, g0, None, open);
      var la := Loaded(a.g, a.v);
      var ta := Tested(la.g, la.o, a.v.ty);
      LoadTestStraight(a.g, a.v);
      ThenStraight(g, a.g, None, open, ta.g);
      var br := if e.isAnd then CondBr(ta.o, rhs, ret) else CondBr(ta.o, ret, rhs);
      OpenMayEnter(g, ta.g, None, open, rhs);
      OpenMayEnter(g, ta.g, None, open, ret);
      ThenEnd(g, ta.g, None, open, br, rhs);
      var g1 := At(Emit(ta.g, br), rhs);
      assert open - {rhs} == {ret};
      SecondTidy(fs, e.second, env, g, rhs, Emit(ta.g, br), a.g.ip, ta.o);
    }
  }

  /** The right operand of `&&` or `||`, and the phi that joins it with the left one. */
  lemma {:induction false} SecondTidy(fs: Functions, e: Expr, env: Env, g: Gen, rhs: nat, h: Gen, from: nat, o: Operand)
    requires rhs == |g.blocks| && rhs + 1 < |h.blocks| && from < |h.blocks| && from != rhs
    requires Tidy(g, At(h, rhs), None, {rhs + 1}) && Preds(g, At(h, rhs), rhs + 1) == {from}
    ensures var b := Lower(fs, e, env, At(h, rhs));
            b.Made? ==>
              var lb := Loaded(b.g, b.v);
              var tb := Tested(lb.g, lb.o, b.v.ty);
              var k := At(Emit(tb.g, Br(rhs + 1)), rhs + 1);
              Tidy(g, EmitDef(k, Phi(k.regs, [Arm(from, o), Arm(b.g.ip, tb.o)])).g, None, {})
    decreases e, 3
  {
    hide Tidy, Plain, Straight, Preds, Loaded, Tested, EmitDef, Emit, Lower, MayEnter, ArmsMatch, Frame;
    var ret := rhs + 1;
    var g1 := At(h, rhs);
    var b := Lower(fs, e, env, g1);
    if b.Made? {
      var lb := Loaded(b.g, b.v);
      var tb := Tested(lb.g, lb.o, b.v.ty);
      ThenLower(fs, e, env, g, g1, None, {ret});
      LoadTestStraight(b.g, b.v);
      ThenStraight(g, b.g, None, {ret}, tb.g);
      OpenMayEnter(g, tb.g, None, {ret}, ret);
      ThenEnd(g, tb.g, None, {ret}, Br(ret), ret);
      LowerFrame(fs, e, env, g1);
      EndBlock(h, rhs, b.g);
      var k := At(Emit(tb.g, Br(ret)), ret);
      TwoArms(from, b.g.ip, o, tb.o, Preds(g, k, ret));
      assert {ret} - {ret} == {};
      ThenPhi(g, k, None, {}, Phi(k.regs, [Arm(from, o), Arm(b.g.ip, tb.o)]));
    }
  }

  lemma {:induction false} TernaryTidy(fs: Functions, e: Expr, env: Env, g: Gen)
    requires e.Ternary? && Plain(Code(g, g.ip))
    ensures var m := LowerTernary(fs, e, env, g); !m.Fail? ==> Tidy(g, m.g, None, {})
    decreases e, 0, 1
  {
    hide Tidy, Plain, Straight, Preds, Loaded, Tested, EmitDef, Emit, Lower, MayEnter, LowerBranches, Frame;
    var n := |g.blocks|;
    var g1 := NewBlock(g, TernaryTrue);
    var g2 := NewBlock(g1, TernaryFalse);
    var g3 := NewBlock(g2, TernaryReturn);
    TidySelf(g, None);
    ThenOpen(g, g, None, {}, TernaryTrue);
    ThenOpen(g, g1, None, {} + {n}, TernaryFalse);
    ThenOpen(g, g2, None, {} + {n} + {n + 1}, TernaryReturn);
    var open := {n, n + 1, n + 2};
    assert {} + {n} + {n + 1} + {n + 2} == open;
    if !LowerTernary(fs, e, env, g).Fail? {
      var c := Lower(fs, e.cond, env, g3);
      ThenLower(fs, e.cond, env, g, g3, None, open);
      var lc := Loaded(c.g, c.v);
      var tc := Tested(lc.g, lc.o, c.v.ty);
      LoadTestStraight(c.g, c.v);
      ThenStraight(g, c.g, None, open, tc.g);
      OpenMayEnter(g, tc.g, None, open, n);
      OpenMayEnter(g, tc.g, None, open, n + 1);
      OpenMayEnter(g, tc.g, None, open, n + 2);
      ThenEnd(g, tc.g, None, open, CondBr(tc.o, n, n + 1), n);
      assert open - {n} == {n + 1, n + 2};
      BranchesTidy(fs, e, env, g, n, c.v, Emit(tc.g, CondBr(tc.o, n, n + 1)));
    }
  }

  lemma {:induction false} BranchesTidy(fs: Functions, e: Expr, env: Env, g: Gen, n: nat, cond: Val, h: Gen)
    requires e.Ternary? && n == |g.blocks| && n + 2 < |h.blocks| && Plain(Code(g, g.ip))
    requires Tidy(g, At(h, n), None, {n + 1, n + 2}) && Preds(g, At(h, n), n + 2) == {}
    ensures var m := LowerBranches(fs, e, env, n, cond, h); !m.Fail? ==> Tidy(g, m.g, None, {})
    decreases e, 0, 0
  {
    hide Tidy, Plain, Preds, Emit, Lower, MayEnter, JoinTernary, Frame;
    var no, ret := n + 1, n + 2;
    var open := {no, ret};
    var g1 := At(h, n);
    if !LowerBranches(fs, e, env, n, cond, h).Fail? {
      var t := if e.onTrue.Some? then Lower(fs, e.onTrue.value, env, g1) else Made(g1, cond);
      if e.onTrue.Some? { ThenLower(fs, e.onTrue.value, env, g, g1, None, open); }
      OpenMayEnter(g, t.g, None, open, no);
      OpenMayEnter(g, t.g, None, open, ret);
      ThenEnd(g, t.g, None, open, Br(ret), no);
      assert open - {no} == {ret};
      var g2 := At(Emit(t.g, Br(ret)), no);
      var f := Lower(fs, e.onFalse, env, g2);
      ThenLower(fs, e.onFalse, env, g, g2, None, {ret});
      LowerFrame(fs, e.onFalse, env, g2);
      EndBlock(Emit(t.g, Br(ret)), no, f.g);
      OpenMayEnter(g, f.g, None, {ret}, ret);
      ThenEnd(g, f.g, None, {ret}, Br(ret), ret);
      assert {ret} - {ret} == {};
      TidyIp(g, t.g, None, open);
      TidyIp(g, f.g, None, {ret});
      JoinTidy(g, ret, t.g.ip, t.v, f.g.ip, f.v, Emit(f.g, Br(ret)));
    }
  }

  lemma TidyIp(g: Gen, h: Gen, x: Option<Exits>, open: set<nat>)
    requires Tidy(g, h, x, open)
    ensures InRegion(g, h, h.ip)
  {
  }

  lemma JoinTidy(g: Gen, ret: nat, tEnd: nat, t: Val, fEnd: nat, f: Val, h: Gen)
    requires Plain(Code(g, g.ip)) && |g.blocks| <= ret < |h.blocks|
    requires Tidy(g, At(h, ret), None, {}) && Preds(g, At(h, ret), ret) == {tEnd, fEnd}
    requires InRegion(g, h, tEnd) && InRegion(g, h, fEnd) && tEnd != fEnd && tEnd != ret && fEnd != ret
    ensures var m := JoinTernary(ret, tEnd, t, fEnd, f, h); !m.Fail? ==> Tidy(g, m.g, None, {})
  {
    hide Tidy, Plain, NoPhi, Preds, CoerceCode, EmitDef, InsertBefore, ArmsMatch;
    var ty := TypeOfTernary(StaticOf(t), StaticOf(f));
    if ty.Typed? {
      var x := CoerceCode(h.regs, t, ty);
      var y := CoerceCode(x.regs, f, ty);
      CoercePlain(h.regs, t, ty);
      CoercePlain(x.regs, f, ty);
      CoerceRegs(h.regs, t, ty);
      CoerceRegs(x.regs, f, ty);
      var h0 := At(h, ret);
      var h1 := InsertBefore(h, tEnd, x.code);
      ThenInserted(g, h0, None, {}, tEnd, x.code);
      InsertAt(h, h0, tEnd, x.code);
      ThenInserted(g, At(h1, ret), None, {}, fEnd, y.code);
      InsertAt(h1, At(h1, ret), fEnd, y.code);
      var h2 := Joined(h, ret, tEnd, x.code, fEnd, y.code, y.regs);
      MoreRegs(g, At(InsertBefore(h1, fEnd, y.code), ret), y.regs);
      TwoArms(tEnd, fEnd, x.o, y.o, Preds(g, h2, ret));
      ThenPhi(g, h2, None, {}, Phi(h2.regs, [Arm(tEnd, x.o), Arm(fEnd, y.o)]));
    }
  }

  lemma MoreRegs(g: Gen, h: Gen, regs: nat)
    requires Tidy(g, h, None, {}) && h.regs <= regs
    ensures Tidy(g, h.(regs := regs), None, {})
    ensures forall d: nat :: Preds(g, h.(regs := regs), d) == Preds(g, h, d)
  {
    var k := h.(regs := regs);
    forall d: nat ensures Preds(g, k, d) == Preds(g, h, d) {
    }
    forall b: nat | InRegion(g, k, b) ensures BlockFine(g, k, None, {}, b) {
      assert InRegion(g, h, b) && BlockFine(g, h, None, {}, b);
    }
    forall d: nat | |g.blocks| <= d < |k.blocks| ensures EntriesFine(g, k, d) {
      assert EntriesFine(g, h, d);
    }
  }

  // ---------------------------------------------------------------------------------------
  // Statements

  /** A statement generated by itself leaves everything in order. */
  ghost predicate TidyResult(g: Gen, r: Option<Gen>, x: Option<Exits>) {
    r.Some? ==> Tidy(g, r.value, x, {})
  }

  lemma {:induction false} StmtTidy(fs: Functions, s: Stmt, env: Env, x: Option<Exits>, g: Gen)
    requires Plain(Code(g, g.ip)) && ExitsBelow(x, g)
    ensures TidyResult(g, LowerStmt(fs, s, env, x, g), x)
    decreases s, 3
  {
    hide Tidy, Straight, Plain, Taken, EmitAssign, LowerIf, LowerLoop, Lower;
    TidySelf(g, x);
    match s
    case ExprStmt(e) => if LowerStmt(fs, s, env, x, g).Some? { ThenLower(fs, e, env, g, g, x, {}); }
    case Declare(ty, name, initial) =>
      var r := LowerStmt(fs, s, env, x, g);
      if r.Some? && initial.Some? {
        var m := Lower(fs, initial.value, Declared(env, ty, name), g);
        var l := Taken(m.g, m.v);
        ThenLower(fs, initial.value, Declared(env, ty, name), g, g, x, {});
        StraightSelf(m.g);
        TakenStraight(m.g, m.g, m.v);
        AssignStraight(m.g, l.g, Val(Slot(env.slots), ty, true), l.o, m.v.ty);
        ThenStraight(g, m.g, x, {}, r.value);
      }
    case Block(body) => StmtsTidy(fs, body, Push(env), x, g);
    case StatementList(ss) => StmtsTidy(fs, ss, env, x, g);
    case If(_, _, _) => IfTidy(fs, s, env, x, g);
    case Loop(_, _, _) => LoopTidy(fs, s, env, x, g);
    case Jump(_) => JumpTidy(fs, s, env, x, g);
  }

  /** The block a keyword opens has no predecessor. */
  lemma JumpTidy(fs: Functions, s: Stmt, env: Env, x: Option<Exits>, g: Gen)
    requires s.Jump? && Plain(Code(g, g.ip)) && ExitsBelow(x, g)
    ensures TidyResult(g, LowerStmt(fs, s, env, x, g), x)
  {
    hide Preds;
    var r := LowerStmt(fs, s, env, x, g);
    if r.Some? {
      var k := r.value;
      var i := match s.keyword
        case Return => Ret
        case Break => Br(x.value.onBreak)
        case Continue => Br(x.value.onContinue);
      EndCloses(g, i);
      assert Code(k, g.ip) == Code(Emit(g, i), g.ip);
      assert Code(k, g.ip)[|Code(g, g.ip)|..] == [i];
      assert Preds(g, k, |g.blocks|) == {} by { JumpPreds(g, k, i, x); }
      forall d: nat | |g.blocks| <= d < |k.blocks| ensures EntriesFine(g, k, d) {
        assert Code(k, d) == [];
      }
    }
  }

  lemma JumpPreds(g: Gen, k: Gen, i: Instr, x: Option<Exits>)
    requires |k.blocks| == |g.blocks| + 1 && Code(k, |g.blocks|) == [] && ExitsBelow(x, g)
    requires Out(Code(k, g.ip)) == Targets(i) && forall d | d in Targets(i) :: IsExit(x, d)
    ensures Preds(g, k, |g.blocks|) == {}
  {
  }

  lemma {:induction false} ThenStmts(fs: Functions, ss: Stmts, env: Env, g: Gen, h: Gen, x: Option<Exits>,
      open: set<nat>, inner: Option<Exits>)
    requires Tidy(g, h, x, open) && LowerStmts(fs, ss, env, inner, h).Some?
    requires forall d: nat | IsExit(inner, d) :: MayEnter(g, h, x, d)
    ensures Tidy(g, LowerStmts(fs, ss, env, inner, h).value, x, open)
    decreases ss, 4
  {
    hide Tidy, Preds, LowerStmts;
    CurrentPlain(g, h, x, open);
    ExitsHere(g, h, x, open, inner);
    StmtsTidy(fs, ss, env, inner, h);
    ThenPiece(g, h, x, open, LowerStmts(fs, ss, env, inner, h).value, inner);
  }

  lemma ExitsHere(g: Gen, h: Gen, x: Option<Exits>, open: set<nat>, inner: Option<Exits>)
    requires Tidy(g, h, x, open) && forall d: nat | IsExit(inner, d) :: MayEnter(g, h, x, d)
    ensures ExitsBelow(inner, h)
  {
    if inner.Some? {
      assert IsExit(inner, inner.value.onBreak) && IsExit(inner, inner.value.onContinue);
    }
  }

  lemma {:induction false} StmtsTidy(fs: Functions, ss: Stmts, env: Env, x: Option<Exits>, g: Gen)
    requires Plain(Code(g, g.ip)) && ExitsBelow(x, g)
    ensures TidyResult(g, LowerStmts(fs, ss, env, x, g), x)
    decreases ss, 3
  {
    hide Tidy, Plain, LowerStmt;
    TidySelf(g, x);
    match ss
    case NoStmts =>
    case ConsStmt(s, rest) =>
      StmtTidy(fs, s, env, x, g);
      var r := LowerStmt(fs, s, env, x, g);
      if r.Some? && LowerStmts(fs, rest, After(s, env), x, r.value).Some? {
        OuterMayEnter(g, r.value, x);
        ThenStmts(fs, rest, After(s, env), g, r.value, x, {}, x);
      }
  }

  lemma OuterMayEnter(g: Gen, h: Gen, x: Option<Exits>)
    ensures forall d: nat | IsExit(x, d) :: MayEnter(g, h, x, d)
  {
  }

  /** A condition, tested where generation stands, that branches to two places that may be entered. */
  lemma {:induction false} ThenCondition(fs: Functions, e: Expr, env: Env, g: Gen, h: Gen, x: Option<Exits>,
      open: set<nat>, t: nat, f: nat, b: nat)
    requires Tidy(g, h, x, open) && b in open && t != f
    requires (t in open || Standing(g, h, t)) && (f in open || Standing(g, h, f))
    requires LowerCondition(fs, e, env, t, f, h).Some?
    ensures b < |h.blocks| && Tidy(g, At(LowerCondition(fs, e, env, t, f, h).value, b), x, open - {b})
    decreases e, 4
  {
    hide Tidy, Plain, Straight, Preds, Loaded, Tested, Emit, Lower, MayEnter, Standing, Frame;
    var m := Lower(fs, e, env, h);
    var l := Loaded(m.g, m.v);
    var y := Tested(l.g, l.o, m.v.ty);
    ThenLower(fs, e, env, g, h, x, open);
    LowerFrame(fs, e, env, h);
    LoadTestStraight(m.g, m.v);
    ThenStraight(g, m.g, x, open, y.g);
    OpenMayEnter(g, y.g, x, open, b);
    forall d: nat | d == t || d == f ensures MayEnter(g, y.g, x, d) {
      if d in open {
        OpenMayEnter(g, y.g, x, open, d);
      } else {
        StillStanding(g, h, m.g, y.g, x, d);
      }
    }
    OpenMayEnter(g, h, x, open, b);
    ThenEnd(g, y.g, x, open, CondBr(y.o, t, f), b);
  }

  /** A finished block that may be branched back to. */
  ghost predicate Standing(g: Gen, h: Gen, d: nat) {
    |g.blocks| <= d < |h.blocks| && d != h.ip && NoPhi(Code(h, d)) && h.blocks[d].tag != Null
  }

  lemma StillStanding(g: Gen, h: Gen, k: Gen, l: Gen, x: Option<Exits>, d: nat)
    requires Standing(g, h, d) && Frame(h, k) && Straight(k, l)
    ensures MayEnter(g, l, x, d) && Standing(g, l, d)
  {
  }

  /** The blocks of a conditional are open when its condition is generated. */
  lemma IfBlocksOpen(g: Gen, x: Option<Exits>, hasElse: bool)
    requires Plain(Code(g, g.ip)) && ExitsBelow(x, g)
    ensures var post, thn := |g.blocks|, |g.blocks| + 1;
            var g1 := NewBlock(NewBlock(g, PostIf), Then);
            if hasElse then Tidy(g, NewBlock(g1, Else), x, {post, thn, post + 2}) else Tidy(g, g1, x, {post, thn})
  {
    hide Tidy, Plain;
    var post, thn := |g.blocks|, |g.blocks| + 1;
    var g0 := NewBlock(g, PostIf);
    var g1 := NewBlock(g0, Then);
    TidySelf(g, x);
    ThenOpen(g, g, x, {}, PostIf);
    ThenOpen(g, g0, x, {} + {post}, Then);
    assert {} + {post} + {thn} == {post, thn};
    ThenOpen(g, g1, x, {post, thn}, Else);
    assert {post, thn} + {post + 2} == {post, thn, post + 2};
  }

  lemma {:induction false} IfTidy(fs: Functions, s: Stmt, env: Env, x: Option<Exits>, g: Gen)
    requires s.If? && Plain(Code(g, g.ip)) && ExitsBelow(x, g)
    ensures TidyResult(g, LowerIf(fs, s, env, x, g), x)
    decreases s, 2
  {
    hide Tidy, Plain, Preds, Emit, LowerStmts, LowerCondition, MayEnter, Standing, AfterList;
    var post, thn := |g.blocks|, |g.blocks| + 1;
    var els := if s.onFalse.Some? then post + 2 else post;
    var g1 := NewBlock(NewBlock(g, PostIf), Then);
    var open := if s.onFalse.Some? then {post, thn, els} else {post, thn};
    var g2 := if s.onFalse.Some? then NewBlock(g1, Else) else g1;
    IfBlocksOpen(g, x, s.onFalse.Some?);
    if LowerIf(fs, s, env, x, g).Some? {
      var c := LowerCondition(fs, s.cond, env, thn, els, g2).value;
      ThenCondition(fs, s.cond, env, g, g2, x, open, thn, els, thn);
      assert open - {thn} == if s.onFalse.Some? then {post, els} else {post};
      OuterMayEnter(g, At(c, thn), x);
      ThenStmts(fs, s.onTrue, Push(env), g, At(c, thn), x, open - {thn}, x);
      var t := LowerStmts(fs, s.onTrue, Push(env), x, At(c, thn)).value;
      OpenMayEnter(g, t, x, open - {thn}, post);
      OpenMayEnter(g, t, x, open - {thn}, els);
      ThenEnd(g, t, x, open - {thn}, Br(post), els);
      if s.onFalse.Some? {
        assert open - {thn} - {els} == {post};
        var env1 := env.(slots := AfterList(s.onTrue, Push(env)).slots);
        var g3 := At(Emit(t, Br(post)), els);
        OuterMayEnter(g, g3, x);
        ThenStmts(fs, s.onFalse.value, Push(env1), g, g3, x, {post}, x);
        var f := LowerStmts(fs, s.onFalse.value, Push(env1), x, g3).value;
        OpenMayEnter(g, f, x, {post}, post);
        ThenEnd(g, f, x, {post}, Br(post), post);
        assert {post} - {post} == {};
      } else {
        assert open - {thn} - {post} == {};
      }
    }
  }

  /** A block that generation started in stands once it has been ended. */
  lemma ThenStands(g: Gen, k: Gen, start: Gen, h: Gen, inner: Option<Exits>, i: Instr)
    requires Tidy(start, h, inner, {}) && Code(start, start.ip) == [] && !i.Phi? && |g.blocks| <= start.ip
    requires start.blocks[start.ip].tag != Null
    requires k.blocks == Emit(h, i).blocks && k.ip != start.ip
    ensures Standing(g, k, start.ip)
  {
    var code := Code(h, start.ip);
    assert code[0..] == code;
    if h.ip == start.ip { assert Code(k, start.ip) == code + [i]; }
  }

  lemma {:induction false} HeadTidy(fs: Functions, s: Stmt, env: Env, x: Option<Exits>, g: Gen, post: nat, g0: Gen)
    requires s.Loop? && |g.blocks| <= post && post + 2 < |g0.blocks|
    requires Tidy(g, g0, x, {post, post + 1, post + 2})
    ensures var h := LowerHead(fs, s, env, x, post + 1, post + 2, g0);
            h.LoopHead? ==> Tidy(g, At(h.g, post + 2), x, {post, post + 1}) &&
                            (h.next == post + 1 || Standing(g, At(h.g, post + 2), h.next))
    decreases s, 0
  {
    hide Tidy, Plain, Preds, Emit, LowerStmts, Lower, MayEnter, Standing, LoopEnv, Frame;
    var cond, body := post + 1, post + 2;
    var open := {post, cond, body};
    assert open - {body} == {post, cond};
    OpenMayEnter(g, g0, x, open, cond);
    OpenMayEnter(g, g0, x, open, body);
    var h := LowerHead(fs, s, env, x, cond, body, g0);
    match s.kind
    case While => ThenEnd(g, g0, x, open, Br(cond), body);
    case Do => ThenEnd(g, g0, x, open, Br(body), body);
    case For(init, iteration) =>
      if h.LoopHead? {
        var i := LowerStmts(fs, init, Push(env), x, g0).value;
        OuterMayEnter(g, g0, x);
        ThenStmts(fs, init, Push(env), g, g0, x, open, x);
        OpenMayEnter(g, i, x, open, cond);
        if iteration.None? {
          ThenEnd(g, i, x, open, Br(cond), body);
        } else {
          IterationTidy(fs, iteration.value, LoopEnv(s.kind, env), x, g, post, i);
        }
      }
  }

  lemma {:induction false} IterationTidy(fs: Functions, e: Expr, env: Env, x: Option<Exits>, g: Gen, post: nat, i: Gen)
    requires |g.blocks| <= post && post + 2 < |i.blocks| && Tidy(g, i, x, {post, post + 1, post + 2})
    ensures var iter := |i.blocks|;
            var m := Lower(fs, e, env, At(NewBlock(Emit(i, Br(post + 1)), LoopIteration), iter));
            !m.Fail? ==> var k := At(Emit(m.g, Br(post + 1)), post + 2);
                         Tidy(g, k, x, {post, post + 1}) && Standing(g, k, iter)
    decreases e, 4
  {
    hide Tidy, Plain, Preds, Lower, MayEnter, Standing, Frame;
    var cond, body := post + 1, post + 2;
    var open := {post, cond, body};
    var iter := |i.blocks|;
    var gi := At(NewBlock(Emit(i, Br(cond)), LoopIteration), iter);
    OpenMayEnter(g, i, x, open, cond);
    ThenOpen(g, i, x, open, LoopIteration);
    var i1 := NewBlock(i, LoopIteration);
    OpenMayEnter(g, i1, x, open + {iter}, cond);
    ThenEnd(g, i1, x, open + {iter}, Br(cond), iter);
    assert open + {iter} - {iter} == open;
    assert gi == At(Emit(i1, Br(cond)), iter);
    var m := Lower(fs, e, env, gi);
    if !m.Fail? {
      hide Emit;
      ThenLower(fs, e, env, g, gi, x, open);
      OpenMayEnter(g, m.g, x, open, cond);
      OpenMayEnter(g, m.g, x, open, body);
      ThenEnd(g, m.g, x, open, Br(cond), body);
      assert open - {body} == {post, cond};
      CurrentPlain(g, gi, x, open);
      LowerTidy(fs, e, env, gi);
      ThenStands(g, At(Emit(m.g, Br(cond)), body), gi, m.g, None, Br(cond));
    }
  }

  lemma {:induction false} LoopTidy(fs: Functions, s: Stmt, env: Env, x: Option<Exits>, g: Gen)
    requires s.Loop? && Plain(Code(g, g.ip)) && ExitsBelow(x, g)
    ensures TidyResult(g, LowerLoop(fs, s, env, x, g), x)
    decreases s, 2
  {
    hide Tidy, Plain, Preds, Emit, LowerStmts, LowerHead, LowerCondition, MayEnter, Standing, LoopEnv, Frame;
    var post := |g.blocks|;
    var g1 := NewBlock(g, PostLoop);
    var g2 := NewBlock(g1, LoopCondition);
    TidySelf(g, x);
    ThenOpen(g, g, x, {}, PostLoop);
    ThenOpen(g, g1, x, {} + {post}, LoopCondition);
    ThenOpen(g, g2, x, {} + {post} + {post + 1}, LoopBody);
    assert {} + {post} + {post + 1} + {post + 2} == {post, post + 1, post + 2};
    var g0 := LoopBlocks(g);
    if LowerLoop(fs, s, env, x, g).Some? {
      var h := LowerHead(fs, s, env, x, post + 1, post + 2, g0);
      HeadTidy(fs, s, env, x, g, post, g0);
      HeadFrame(fs, s, env, x, post + 1, post + 2, g0);
      Untouched(g0, h.g, post + 2);
      LoopBodyTidy(fs, s, LoopEnv(s.kind, env), x, g, post, h.next, At(h.g, post + 2));
    }
  }

  /** The body of a loop and its condition, which branches back to the body. */
  lemma {:induction false} LoopBodyTidy(fs: Functions, s: Stmt, env: Env, x: Option<Exits>, g: Gen, post: nat,
      next: nat, h: Gen)
    requires s.Loop? && |g.blocks| <= post && h.ip == post + 2 && Code(h, post + 2) == [] &&
      h.blocks[post + 2].tag != Null
    requires Tidy(g, h, x, {post, post + 1}) && (next == post + 1 || Standing(g, h, next))
    ensures var b := LowerStmts(fs, s.body, Push(env), Some(Exits(post, next)), h);
            b.Some? && post + 1 < |b.value.blocks| ==>
              TidyResult(g, LoopEnd(fs, s.cond, env, post, At(Emit(b.value, Br(next)), post + 1)), x)
    decreases s, 1
  {
    hide Tidy, Plain, Preds, Emit, LowerStmts, LowerCondition, MayEnter, Standing, Frame;
    var cond, body := post + 1, post + 2;
    var open := {post, cond};
    var inner := Some(Exits(post, next));
    if LowerStmts(fs, s.body, Push(env), inner, h).Some? {
      var b := LowerStmts(fs, s.body, Push(env), inner, h).value;
      OpenMayEnter(g, h, x, open, post);
      OpenMayEnter(g, h, x, open, cond);
      if next != cond { FrameSelf(h); StraightSelf(h); StillStanding(g, h, h, h, x, next); }
      ThenStmts(fs, s.body, Push(env), g, h, x, open, inner);
      OpenMayEnter(g, b, x, open, post);
      OpenMayEnter(g, b, x, open, cond);
      StmtsFrame(fs, s.body, Push(env), inner, h);
      if next != cond { StraightSelf(b); StillStanding(g, h, b, b, x, next); }
      ThenEnd(g, b, x, open, Br(next), cond);
      assert open - {cond} == {post};
      CurrentPlain(g, h, x, open);
      ExitsHere(g, h, x, open, inner);
      StmtsTidy(fs, s.body, Push(env), inner, h);
      var g2 := At(Emit(b, Br(next)), cond);
      ThenStands(g, g2, h, b, inner, Br(next));
      if LowerCondition(fs, s.cond, env, body, post, g2).Some? {
        ThenCondition(fs, s.cond, env, g, g2, x, {post}, body, post, post);
        assert {post} - {post} == {};
      }
    }
  }

  function LoopEnd(fs: Functions, c: Expr, env: Env, post: nat, g: Gen): Option<Gen>
    requires post < |g.blocks|
  {
    var r := LowerCondition(fs, c, env, post + 2, post, g);
    if r.None? then None else Some(At(r.value, post))
  }

  // ---------------------------------------------------------------------------------------
  // Whole functions

  /** The blocks of a function that branch to d. */
  function Predecessors(blocks: seq<BasicBlock>, d: nat): set<nat> {
    set b: nat | b < |blocks| && d in Out(blocks[b].code)
  }

  ghost predicate BlockWellFormed(blocks: seq<BasicBlock>, b: nat)
    requires b < |blocks|
  {
    var code := blocks[b].code;
    && Closed(code)
    && (forall d | d in Out(code) :: 0 < d < |blocks|)
    && PhisMatch(code, Predecessors(blocks, b))
    && (blocks[b].tag == Null ==> Predecessors(blocks, b) == {})
  }

  /** Each block ends in its only terminator, branches stay in the function and never go back to its
      entry, each phi lists every predecessor exactly once, and null blocks are never entered. */
  ghost predicate FunctionWellFormed(blocks: seq<BasicBlock>) {
    forall b: nat | b < |blocks| :: BlockWellFormed(blocks, b)
  }

  /** Whatever is accepted compiles to a well-formed function. */
  lemma GeneratesWellFormed(fs: Functions, root: Stmts, env: Env, g: Gen)
    requires |g.blocks| == 1 && Plain(Code(g, 0)) && NoPhi(Code(g, 0)) && g.blocks[0].tag != Null
    ensures var t := LowerTree(fs, root, env, g); t.Some? ==> FunctionWellFormed(t.value.blocks)
  {
    hide Plain, NoPhi, LowerStmt, PhisMatch, Closed, Out, Preds, Emit;
    var r := LowerStmt(fs, Block(root), env, None, g);
    StmtTidy(fs, Block(root), env, None, g);
    if r.Some? {
      var h := r.value;
      var blocks := Emit(h, Ret).blocks;
      CurrentPlain(g, h, None, {});
      EndCloses(h, Ret);
      assert NoPhi(Code(h, 0)) by {
        assert Code(h, 0) == Code(g, 0) + Code(h, 0)[|Code(g, 0)|..];
        NoPhiAll(Code(g, 0), Code(h, 0)[|Code(g, 0)|..]);
      }
      forall b: nat | b < |blocks| ensures BlockWellFormed(blocks, b) {
        RetKeeps(h, b);
        assert InRegion(g, h, b) && BlockFine(g, h, None, {}, b);
        AllPreds(g, h, b);
        if b > 0 { assert EntriesFine(g, h, b); } else { NoPhiMatches(Code(h, b), Preds(g, h, b)); }
        if b == h.ip { PhisMatchAppend(Code(h, b), Ret, Preds(g, h, b)); }
      }
    }
  }

  lemma NoPhiAll(a: seq<Instr>, b: seq<Instr>)
    requires NoPhi(a) && NoPhi(b)
    ensures NoPhi(a + b)
  {
  }

  lemma RetKeeps(h: Gen, b: nat)
    requires b < |h.blocks|
    ensures Emit(h, Ret).blocks[b].tag == h.blocks[b].tag
    ensures Emit(h, Ret).blocks[b].code == if b == h.ip then Code(h, b) + [Ret] else Code(h, b)
  {
  }

  lemma AllPreds(g: Gen, h: Gen, d: nat)
    requires |g.blocks| == 1 && g.ip == 0 && Plain(Code(h, h.ip))
    ensures Predecessors(Emit(h, Ret).blocks, d) == Preds(g, h, d)
  {
    var blocks := Emit(h, Ret).blocks;
    PlainOut(Code(h, h.ip));
    forall b: nat | b < |h.blocks| ensures Out(blocks[b].code) == Out(Code(h, b)) && InRegion(g, h, b) {
      RetKeeps(h, b);
    }
  }
}
