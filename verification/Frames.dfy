/**
What generation leaves alone, and that it succeeds exactly on the programs `Check` accepts.
*/
module Frames {
  import opened Types
  import opened Ast
  import opened Overloads
  import opened Semantics
  import opened Cfg
  import opened Lowering

  /** Only the current block and blocks created later receive code, and only at their end. */
  ghost predicate Frame(g: Gen, h: Gen) {
    && |g.blocks| <= |h.blocks|
    && g.regs <= h.regs
    && (h.ip == g.ip || |g.blocks| <= h.ip)
    && (forall b | 0 <= b < |g.blocks| && b != g.ip :: h.blocks[b] == g.blocks[b])
    && h.blocks[g.ip].tag == g.blocks[g.ip].tag
    && Code(g, g.ip) <= Code(h, g.ip)
  }

  predicate Below(o: Operand, regs: nat) {
    o.Reg? ==> o.r < regs
  }

  /** The generator's verdict on an expression is the static one. */
  predicate Agrees(m: Made, s: Static) {
    match m
    case Fail => s == Ill
    case Quiet(_) => s == Mute
    case Made(_, v) => s == StaticOf(v)
  }

  lemma FrameTrans(a: Gen, b: Gen, c: Gen)
    requires Frame(a, b) && Frame(b, c)
    ensures Frame(a, c) && a.regs <= b.regs <= c.regs
  {
  }

  /** Moving to a block that did not exist at the start keeps the frame. */
  lemma FrameVia(a: Gen, b: Gen, ip: nat, c: Gen)
    requires Frame(a, b) && |a.blocks| <= ip < |b.blocks| && Frame(At(b, ip), c)
    ensures Frame(a, c) && a.regs <= b.regs <= c.regs
  {
    FrameTrans(a, At(b, ip), c);
  }

  lemma Untouched(g: Gen, h: Gen, b: nat)
    requires Frame(g, h) && b < |g.blocks| && b != g.ip
    ensures b < |h.blocks| && h.blocks[b] == g.blocks[b] && h.ip != b
  {
  }

  lemma ThenAt(g: Gen, h: Gen, ip: nat)
    requires Frame(g, h) && |g.blocks| <= ip < |h.blocks|
    ensures Frame(g, At(h, ip)) && g.regs <= h.regs
  {
  }

  lemma ThenEmit(g: Gen, h: Gen, i: Instr)
    requires Frame(g, h)
    ensures Frame(g, Emit(h, i)) && Emit(h, i).regs == h.regs
  {
  }

  lemma ThenBlock(g: Gen, h: Gen, tag: Label)
    requires Frame(g, h)
    ensures Frame(g, NewBlock(h, tag))
  {
  }

  lemma NewBlockFrame(g: Gen, tag: Label)
    ensures Frame(g, NewBlock(g, tag))
  {
  }

  lemma ThenDefine(g: Gen, h: Gen, i: Instr)
    requires Frame(g, h)
    ensures var e := EmitDef(h, i);
            Frame(g, e.g) && Below(e.o, e.g.regs) && h.regs <= e.g.regs && e.g.ip == h.ip
  {
  }

  lemma ThenLoad(g: Gen, h: Gen, v: Val)
    requires Frame(g, h) && Below(v.o, h.regs)
    ensures var e := Loaded(h, v);
            Frame(g, e.g) && Below(e.o, e.g.regs) && h.regs <= e.g.regs && e.g.ip == h.ip
  {
  }

  lemma ThenConvert(g: Gen, h: Gen, o: Operand, from: Ty, to: Ty)
    requires Frame(g, h) && Below(o, h.regs)
    ensures var e := Converted(h, o, from, to);
            Frame(g, e.g) && Below(e.o, e.g.regs) && h.regs <= e.g.regs && e.g.ip == h.ip
  {
  }

  lemma ThenTest(g: Gen, h: Gen, o: Operand, ty: Ty)
    requires Frame(g, h) && Below(o, h.regs)
    ensures var e := Tested(h, o, ty);
            Frame(g, e.g) && Below(e.o, e.g.regs) && h.regs <= e.g.regs && e.g.ip == h.ip
  {
  }

  lemma ThenCast(g: Gen, h: Gen, o: Operand, from: Ty, to: Ty)
    requires Frame(g, h) && Below(o, h.regs)
    ensures var e := CastTo(h, o, from, to);
            Frame(g, e.g) && Below(e.o, e.g.regs) && h.regs <= e.g.regs && e.g.ip == h.ip
  {
    hide Frame, Tested, Converted;
    ThenTest(g, h, o, from);
    ThenConvert(g, h, o, from, to);
  }

  lemma ThenTaken(g: Gen, h: Gen, v: Val)
    requires Frame(g, h) && Below(v.o, h.regs)
    ensures var e := Taken(h, v);
            Frame(g, e.g) && Below(e.o, e.g.regs) && h.regs <= e.g.regs && e.g.ip == h.ip
  {
    hide Frame, Loaded;
    ThenLoad(g, h, v);
  }

  lemma ThenElement(g: Gen, h: Gen, o: Operand, ty: Ty, i: nat)
    requires Frame(g, h) && Below(o, h.regs)
    ensures var e := EmitElement(h, o, ty, i);
            Frame(g, e.g) && Below(e.o, e.g.regs) && h.regs <= e.g.regs && e.g.ip == h.ip
  {
    hide Frame, EmitDef;
    ThenDefine(g, h, Element(h.regs, o, i));
  }

  lemma BelowMore(o: Operand, k: nat, l: nat)
    requires Below(o, k) && k <= l
    ensures Below(o, l)
  {
  }

  lemma ThenArith(g: Gen, h: Gen, op: BinOp, t: Ty, a: Operand, lt: Ty, b: Operand, rt: Ty)
    requires Frame(g, h) && Below(a, h.regs) && Below(b, h.regs)
    ensures var e := EmitArith(h, op, t, a, lt, b, rt);
            Frame(g, e.g) && Below(e.o, e.g.regs) && h.regs <= e.g.regs && e.g.ip == h.ip
  {
    hide Frame, Converted, EmitDef, Below;
    var p := Converted(h, a, lt, t);
    var q := Converted(p.g, b, rt, t);
    ThenConvert(g, h, a, lt, t);
    BelowMore(b, h.regs, p.g.regs);
    ThenConvert(g, p.g, b, rt, t);
    ThenDefine(g, q.g, Arith(q.g.regs, op, t, p.o, q.o));
  }

  predicate AllBelow(os: seq<Operand>, regs: nat) {
    forall i | 0 <= i < |os| :: Below(os[i], regs)
  }

  /** What a piece of straight-line code that yields several operands guarantees. */
  ghost predicate FramesAll(g: Gen, h: Gen, e: EmittedAll) {
    Frame(g, e.g) && AllBelow(e.os, e.g.regs) && h.regs <= e.g.regs && e.g.ip == h.ip
  }

  lemma {:induction false} ThenElements(g: Gen, h: Gen, op: BinOp, t: Ty, a: Operand, lt: Ty, b: Operand, rt: Ty,
      size: nat)
    requires Frame(g, h) && Below(a, h.regs) && Below(b, h.regs)
    ensures FramesAll(g, h, EmitElements(h, op, t, a, lt, b, rt, size))
    decreases size
  {
    hide Frame, EmitElement, EmitArith;
    if size > 0 {
      var es := EmitElements(h, op, t, a, lt, b, rt, size - 1);
      var x := EmitElement(es.g, a, lt, size - 1);
      var y := EmitElement(x.g, b, rt, size - 1);
      ThenElements(g, h, op, t, a, lt, b, rt, size - 1);
      ThenElement(g, es.g, a, lt, size - 1);
      ThenElement(g, x.g, b, rt, size - 1);
      ThenArith(g, y.g, op, t, x.o, ElementOf(lt), y.o, ElementOf(rt));
    }
  }

  lemma {:induction false} ThenReduce(g: Gen, h: Gen, op: BinOp, os: seq<Operand>)
    requires Frame(g, h) && AllBelow(os, h.regs)
    ensures var e := EmitReduce(h, op, os);
            Frame(g, e.g) && Below(e.o, e.g.regs) && h.regs <= e.g.regs && e.g.ip == h.ip
    decreases |os|
  {
    hide Frame, EmitDef;
    if |os| > 1 {
      ThenReduce(g, h, op, os[..|os| - 1]);
      var r := EmitReduce(h, op, os[..|os| - 1]);
      ThenDefine(g, r.g, Arith(r.g.regs, ReduceOp(op), Bool, r.o, os[|os| - 1]));
    }
  }

  lemma ThenZip(g: Gen, h: Gen, op: BinOp, t: Ty, a: Operand, lt: Ty, b: Operand, rt: Ty, size: nat)
    requires Frame(g, h) && Below(a, h.regs) && Below(b, h.regs)
    ensures var e := EmitZip(h, op, t, a, lt, b, rt, size);
            Frame(g, e.g) && Below(e.o, e.g.regs) && h.regs <= e.g.regs && e.g.ip == h.ip
  {
    hide Frame, EmitElements, EmitReduce, EmitDef;
    var es := EmitElements(h, op, t, a, lt, b, rt, size);
    ThenElements(g, h, op, t, a, lt, b, rt, size);
    ThenReduce(g, es.g, op, es.os);
    ThenDefine(g, es.g, Pack(es.g.regs, es.os));
  }

  lemma {:induction false} ThenUnpacked(g: Gen, h: Gen, o: Operand, size: nat)
    requires Frame(g, h) && Below(o, h.regs)
    ensures FramesAll(g, h, Unpacked(h, o, size))
    decreases size
  {
    hide Frame, EmitDef;
    if size > 0 {
      var es := Unpacked(h, o, size - 1);
      ThenUnpacked(g, h, o, size - 1);
      ThenDefine(g, es.g, Element(es.g.regs, o, size - 1));
    }
  }

  lemma {:induction false} ThenEach(g: Gen, h: Gen, op: UnOp, elem: Ty, os: seq<Operand>)
    requires Frame(g, h) && AllBelow(os, h.regs)
    ensures FramesAll(g, h, EmitEach(h, op, elem, os))
    decreases |os|
  {
    hide Frame, EmitDef;
    if |os| > 0 {
      var es := EmitEach(h, op, elem, os[..|os| - 1]);
      ThenEach(g, h, op, elem, os[..|os| - 1]);
      ThenDefine(g, es.g, Negate(es.g.regs, op, elem, os[|os| - 1]));
    }
  }

  lemma ThenUnaryEach(g: Gen, h: Gen, op: UnOp, ty: Ty, o: Operand)
    requires ty.IsArray() && Frame(g, h) && Below(o, h.regs)
    ensures var e := EmitUnaryEach(h, op, ty, o);
            Frame(g, e.g) && Below(e.o, e.g.regs) && h.regs <= e.g.regs && e.g.ip == h.ip
  {
    hide Frame, Unpacked, EmitEach, EmitDef;
    var x := Unpacked(h, o, ty.size);
    var y := EmitEach(x.g, op, ty.elem, x.os);
    ThenUnpacked(g, h, o, ty.size);
    ThenEach(g, x.g, op, ty.elem, x.os);
    ThenDefine(g, y.g, Pack(y.g.regs, y.os));
  }

  lemma {:induction false} ThenCells(g: Gen, h: Gen, target: Operand, elem: Ty, o: Operand, ty: Ty, size: nat)
    requires Frame(g, h) && Below(target, h.regs) && Below(o, h.regs)
    ensures var k := EmitCells(h, target, elem, o, ty, size); Frame(g, k) && k.ip == h.ip && h.regs <= k.regs
    decreases size
  {
    hide Frame, EmitDef, EmitElement, Converted, Emit;
    if size > 0 {
      var before := EmitCells(h, target, elem, o, ty, size - 1);
      ThenCells(g, h, target, elem, o, ty, size - 1);
      var l := EmitDef(before, Gep(before.regs, target, Const(size - 1)));
      ThenDefine(g, before, Gep(before.regs, target, Const(size - 1)));
      var r := EmitElement(l.g, o, ty, size - 1);
      ThenElement(g, l.g, o, ty, size - 1);
      var c := Converted(r.g, r.o, ElementOf(ty), elem);
      ThenConvert(g, r.g, r.o, ElementOf(ty), elem);
      ThenEmit(g, c.g, Store(l.o, c.o));
    }
  }

  lemma ThenBinary(g: Gen, h: Gen, op: BinOp, a: Val, b: Val)
    requires Frame(g, h) && Below(a.o, h.regs) && Below(b.o, h.regs)
    ensures var m := EmitBinary(h, op, a, b);
            Agrees(m, TypeOfBinary(op, a.ty, b.ty)) &&
            (m.Made? ==> Frame(g, m.g) && Below(m.v.o, m.g.regs) && h.regs <= m.g.regs && m.g.ip == h.ip)
  {
    hide Frame, Taken, Promoted, EmitOperator, TypeOfOperator, Promotion;
    var lt, rt := Promotion(a.ty, b.ty), Promotion(b.ty, a.ty);
    var x := Taken(h, a);
    var y := Taken(x.g, b);
    var p := Promoted(y.g, x.o, a.ty, lt);
    var q := Promoted(p.g, y.o, b.ty, rt);
    ThenTaken(g, h, a);
    ThenTaken(g, x.g, b);
    ThenPromoted(g, y.g, x.o, a.ty, lt);
    ThenPromoted(g, p.g, y.o, b.ty, rt);
    ThenOperator(g, q.g, op, p.o, lt, q.o, rt);
  }

  lemma ThenPromoted(g: Gen, h: Gen, o: Operand, from: Ty, to: Ty)
    requires Frame(g, h) && Below(o, h.regs)
    ensures var e := Promoted(h, o, from, to);
            Frame(g, e.g) && Below(e.o, e.g.regs) && h.regs <= e.g.regs && e.g.ip == h.ip
  {
    hide Frame, Converted, EmitDef;
    if from != to && to.Vec? {
      var c := Converted(h, o, from, to.elem);
      ThenConvert(g, h, o, from, to.elem);
      ThenDefine(g, c.g, Pack(c.g.regs, Spread(c.o, Const(0), to.size)));
    }
  }

  lemma ThenOperator(g: Gen, h: Gen, op: BinOp, a: Operand, lt: Ty, b: Operand, rt: Ty)
    requires Frame(g, h) && Below(a, h.regs) && Below(b, h.regs)
    ensures var m := EmitOperator(h, op, a, lt, b, rt);
            Agrees(m, TypeOfOperator(op, lt, rt)) &&
            (m.Made? ==> Frame(g, m.g) && Below(m.v.o, m.g.regs) && h.regs <= m.g.regs && m.g.ip == h.ip)
  {
    hide Frame, EmitProduct, EmitZip, EmitArith, IsElementwise, IsProduct;
    if IsProduct(op, lt, rt) {
      ProductTypes(op, lt, rt);
      ThenProduct(g, h, a, lt, b, rt);
    } else {
      match OperandType(op, lt, rt)
      case None =>
      case Some(t) =>
        ThenZip(g, h, op, t, a, lt, b, rt, ZipSize(lt, rt));
        ThenArith(g, h, op, t, a, lt, b, rt);
    }
  }

  lemma ProductTypes(op: BinOp, lt: Ty, rt: Ty)
    requires IsProduct(op, lt, rt)
    ensures lt.IsArray() && rt.IsArray() && Vec(ProductElem(lt, rt), ProductSize(lt, rt)).IsArray()
  {
  }

  lemma ThenProduct(g: Gen, h: Gen, a: Operand, lt: Ty, b: Operand, rt: Ty)
    requires lt.Vec? && rt.Vec? && Frame(g, h) && Below(a, h.regs) && Below(b, h.regs)
    ensures var e := EmitProduct(h, a, lt, b, rt);
            Frame(g, e.g) && Below(e.o, e.g.regs) && h.regs <= e.g.regs && e.g.ip == h.ip
  {
    hide Frame, EmitArrayCast, EmitDef;
    var t := ProductElem(lt, rt);
    var x := EmitArrayCast(h, a, lt.elem, t, lt.size);
    var y := EmitArrayCast(x.g, b, rt.elem, t, rt.size);
    ThenArrayCast(g, h, a, lt.elem, t, lt.size);
    ThenArrayCast(g, x.g, b, rt.elem, t, rt.size);
    ThenDefine(g, y.g, Product(y.g.regs, t, x.o, lt.size, y.o, rt.size, ProductSize(lt, rt)));
  }

  lemma BinaryMade(g: Gen, op: BinOp, a: Val, b: Val)
    ensures var r := EmitBinary(g, op, a, b); !r.Quiet? && (r.Made? ==> !r.v.ptr && IsOperand(r.v.ty))
  {
    hide EmitZip, EmitArith, EmitProduct, Taken, Promoted, Promotion;
  }

  lemma ThenAssign(g: Gen, h: Gen, target: Val, o: Operand, ty: Ty)
    requires Frame(g, h) && Below(target.o, h.regs) && Below(o, h.regs)
    ensures var r := EmitAssign(h, target, o, ty);
            (r.Some? <==> CanAssign(StaticOf(target), ty)) &&
            (r.Some? ==> Frame(g, r.value) && r.value.ip == h.ip && h.regs <= r.value.regs)
  {
    hide Frame, Converted, EmitBinary, EmitCells, Promoted;
    if CanAssign(StaticOf(target), ty) {
      if target.ty.IsArray() {
        var from := Promotion(ty, target.ty);
        var p := Promoted(h, o, ty, from);
        ThenPromoted(g, h, o, ty, from);
        ThenCells(g, p.g, target.o, target.ty.elem, p.o, from, target.ty.size);
      } else if target.ty == Bool {
        var zero := Val(Const(0), Int32, false);
        ThenBinary(g, h, NotEquals, zero, Val(o, ty, false));
        var m := EmitBinary(h, NotEquals, zero, Val(o, ty, false));
        ThenEmit(g, m.g, Store(target.o, m.v.o));
      } else {
        var c := Converted(h, o, ty, target.ty);
        ThenConvert(g, h, o, ty, target.ty);
        ThenEmit(g, c.g, Store(target.o, c.o));
      }
    }
  }

  lemma ThenLoadAll(g: Gen, h: Gen, vs: seq<Val>)
    requires Frame(g, h) && forall i | 0 <= i < |vs| :: Below(vs[i].o, h.regs)
    ensures var e := LoadAll(h, vs);
            Frame(g, e.g) && AllBelow(e.os, e.g.regs) && h.regs <= e.g.regs && e.g.ip == h.ip
    decreases |vs|
  {
    if |vs| > 0 {
      hide Frame, Taken;
      var x := Taken(h, vs[|vs| - 1]);
      ThenTaken(g, h, vs[|vs| - 1]);
      ThenLoadAll(g, x.g, vs[..|vs| - 1]);
    }
  }

  lemma {:induction false} ThenCastCells(g: Gen, h: Gen, o: Operand, from: Ty, to: Ty, size: nat)
    requires Frame(g, h) && Below(o, h.regs)
    ensures FramesAll(g, h, EmitCastCells(h, o, from, to, size))
    decreases size
  {
    hide Frame, EmitDef;
    if size > 0 {
      var es := EmitCastCells(h, o, from, to, size - 1);
      var l := EmitDef(es.g, Element(es.g.regs, o, size - 1));
      ThenCastCells(g, h, o, from, to, size - 1);
      ThenDefine(g, es.g, Element(es.g.regs, o, size - 1));
      ThenDefine(g, l.g, Conv(l.g.regs, from, to, l.o));
    }
  }

  lemma ThenArrayCast(g: Gen, h: Gen, o: Operand, from: Ty, to: Ty, size: nat)
    requires Frame(g, h) && Below(o, h.regs)
    ensures var e := EmitArrayCast(h, o, from, to, size);
            Frame(g, e.g) && Below(e.o, e.g.regs) && h.regs <= e.g.regs && e.g.ip == h.ip
  {
    hide Frame, EmitCastCells, EmitDef;
    if from != to {
      var es := EmitCastCells(h, o, from, to, size);
      ThenCastCells(g, h, o, from, to, size);
      ThenDefine(g, es.g, Pack(es.g.regs, es.os));
    }
  }

  lemma ThenArg(g: Gen, h: Gen, to: ArgTy, from: ArgTy, o: Operand)
    requires Frame(g, h) && Below(o, h.regs)
    ensures var e := EmitArg(h, to, from, o);
            Frame(g, e.g) && Below(e.o, e.g.regs) && h.regs <= e.g.regs && e.g.ip == h.ip
  {
    hide Frame, EmitArrayCast, CastTo;
    if !from.Pointer? { ThenCast(g, h, o, ElementType(from), ElementType(to)); }
    else { ThenArrayCast(g, h, o, ElementOf(ElementType(from)), ElementOf(ElementType(to)), SizeBehind(from)); }
  }

  lemma ThenCastAll(g: Gen, h: Gen, params: seq<Parameter>, ts: seq<ArgTy>, os: seq<Operand>)
    requires |params| == |ts| == |os|
    requires Frame(g, h) && AllBelow(os, h.regs)
    ensures var e := CastAll(h, params, ts, os);
            Frame(g, e.g) && AllBelow(e.os, e.g.regs) && h.regs <= e.g.regs && e.g.ip == h.ip
    decreases |os|
  {
    if |os| > 0 {
      hide Frame, EmitArg;
      var x := EmitArg(h, params[0].ty, ts[0], os[0]);
      ThenArg(g, h, params[0].ty, ts[0], os[0]);
      ThenCastAll(g, x.g, params[1..], ts[1..], os[1..]);
    }
  }

  // ---------------------------------------------------------------------------------------
  // Expressions

  /** What generation of an expression guarantees: the frame, and the statically expected verdict. */
  ghost predicate Good(g: Gen, m: Made, s: Static) {
    && Agrees(m, s)
    && (!m.Fail? ==> Frame(g, m.g) && g.regs <= m.g.regs)
    && (m.Made? ==> Below(m.v.o, m.g.regs))
  }

  lemma {:induction false} LowerFrame(fs: Functions, e: Expr, env: Env, g: Gen)
    ensures Good(g, Lower(fs, e, env, g), Check(fs, e, env))
    decreases e, 1
  {
    hide Frame, Loaded, Taken, Converted, Tested, CastTo, EmitDef, Emit, EmitBinary, EmitUnaryEach, EmitAssign,
      LowerLogical, LowerTernary, EmitCall, EmitPack;
    match e
    case Literal(_, _) => FrameSelf(g);
    case Local(_) => FrameSelf(g);
    case Attribute(_, _) => FrameSelf(g);
    case Component(_, _) => ComponentFrame(fs, e, env, g);
    case MatrixEntry(_, _, _) => EntryFrame(fs, e, env, g);
    case Unary(_, _) => UnaryFrame(fs, e, env, g);
    case Binary(_, _, _) => BinaryFrame(fs, e, env, g);
    case Logical(_, _, _) => LogicalFrame(fs, e, env, g);
    case Ternary(_, _, _) => TernaryFrame(fs, e, env, g);
    case Comma(es) => CommaFrame(fs, es, env, g);
    case Assign(_, _, _) => AssignmentFrame(fs, e, env, g);
    case Crement(_, _, _) => CrementFrame(fs, e, env, g);
    case Cast(_, _) => CastFrame(fs, e, env, g);
    case Call(_, _) => CallFrame(fs, e, env, g);
    case ArrayPack(_) => PackFrame(fs, e, env, g);
  }

  lemma FrameSelf(g: Gen)
    ensures Frame(g, g)
  {
  }

  lemma {:induction false} UnaryFrame(fs: Functions, e: Expr, env: Env, g: Gen)
    requires e.Unary?
    ensures Good(g, Lower(fs, e, env, g), Check(fs, e, env))
    decreases e, 0
  {
    hide Frame, Loaded, Taken, Converted, Tested, CastTo, EmitDef, Emit, EmitBinary, EmitUnaryEach, EmitAssign,
      LowerLogical, LowerTernary, EmitCall;
    LowerFrame(fs, e.operand, env, g);
    var r := Lower(fs, e.operand, env, g);
    if e.unOp != UnaryPlus && r.Made? && r.v.ty.IsArray() {
      ThenUnaryEach(g, r.g, e.unOp, r.v.ty, r.v.o);
    } else if e.unOp != UnaryPlus && r.Made? && TypeOfUnary(e.unOp, r.v.ty).Typed? {
      var x := Loaded(r.g, r.v);
      ThenLoad(g, r.g, r.v);
      var wide := if e.unOp == LogicalNot then r.v.ty else UnaryType(r.v.ty);
      var y := Converted(x.g, x.o, r.v.ty, wide);
      ThenConvert(g, x.g, x.o, r.v.ty, wide);
      ThenDefine(g, y.g, Negate(y.g.regs, e.unOp, wide, y.o));
    }
  }

  lemma {:induction false} BinaryFrame(fs: Functions, e: Expr, env: Env, g: Gen)
    requires e.Binary?
    ensures Good(g, Lower(fs, e, env, g), Check(fs, e, env))
    decreases e, 0
  {
    hide Frame, Loaded, Taken, Converted, Tested, CastTo, EmitDef, Emit, EmitBinary, EmitUnaryEach, EmitAssign,
      LowerLogical, LowerTernary, EmitCall;
    LowerFrame(fs, e.lhs, env, g);
    var a := Lower(fs, e.lhs, env, g);
    LowerFrame(fs, e.rhs, env, if a.Made? then a.g else g);
    if a.Made? {
      var b := Lower(fs, e.rhs, env, a.g);
      if b.Made? {
        FrameTrans(g, a.g, b.g);
        ThenBinary(g, b.g, e.binOp, a.v, b.v);
      }
    }
  }

  lemma {:induction false} CastFrame(fs: Functions, e: Expr, env: Env, g: Gen)
    requires e.Cast?
    ensures Good(g, Lower(fs, e, env, g), Check(fs, e, env))
    decreases e, 0
  {
    hide Frame, Loaded, Taken, Converted, Tested, CastTo, EmitDef, Emit, EmitBinary, EmitUnaryEach, EmitAssign,
      LowerLogical, LowerTernary, EmitCall;
    LowerFrame(fs, e.inner, env, g);
    var a := Lower(fs, e.inner, env, g);
    if a.Made? && a.v.ty.IsScalar() && e.castTy.IsScalar() && a.v.ty != e.castTy {
      ThenLoad(g, a.g, a.v);
      var x := Loaded(a.g, a.v);
      ThenCast(g, x.g, x.o, a.v.ty, e.castTy);
    }
  }

  lemma {:induction false} ComponentFrame(fs: Functions, e: Expr, env: Env, g: Gen)
    requires e.Component?
    ensures Good(g, Lower(fs, e, env, g), Check(fs, e, env))
    decreases e, 0
  {
    hide Frame, Loaded, EmitDef;
    LowerFrame(fs, e.index, env, g);
    var i := Lower(fs, e.index, env, g);
    LowerFrame(fs, e.vec, env, if i.Made? then i.g else g);
    if i.Made? {
      var v := Lower(fs, e.vec, env, i.g);
      if v.Made? && v.v.ptr && v.v.ty.Vec? && i.v.ty.IsInteger() {
        FrameTrans(g, i.g, v.g);
        ThenLoad(g, v.g, i.v);
        var x := Loaded(v.g, i.v);
        ThenDefine(g, x.g, Gep(x.g.regs, v.v.o, x.o));
      }
    }
  }

  lemma ThenEntry(g: Gen, h: Gen, row: Val, column: Val, m: Val)
    requires Frame(g, h) && Below(row.o, h.regs) && Below(column.o, h.regs) && Below(m.o, h.regs)
    ensures var e := EmitEntry(h, row, column, m);
            Frame(g, e.g) && Below(e.o, e.g.regs) && h.regs <= e.g.regs && e.g.ip == h.ip
  {
    hide Frame, Loaded, EmitDef;
    var x := Loaded(h, row);
    var y := Loaded(x.g, column);
    var mul := Arith(y.g.regs, Multiply, Int32, x.o, Const(Dimension(m.ty)));
    var p := EmitDef(y.g, mul);
    var add := Arith(p.g.regs, Plus, Int32, p.o, y.o);
    var q := EmitDef(p.g, add);
    ThenLoad(g, h, row);
    ThenLoad(g, x.g, column);
    ThenDefine(g, y.g, mul);
    ThenDefine(g, p.g, add);
    ThenDefine(g, q.g, Gep(q.g.regs, m.o, q.o));
  }

  lemma {:induction false} EntryFrame(fs: Functions, e: Expr, env: Env, g: Gen)
    requires e.MatrixEntry?
    ensures Good(g, Lower(fs, e, env, g), Check(fs, e, env))
    decreases e, 0
  {
    hide Frame, EmitEntry;
    LowerFrame(fs, e.row, env, g);
    var i := Lower(fs, e.row, env, g);
    LowerFrame(fs, e.column, env, if i.Made? then i.g else g);
    if i.Made? {
      var j := Lower(fs, e.column, env, i.g);
      LowerFrame(fs, e.matrix, env, if j.Made? then j.g else g);
      if j.Made? {
        FrameTrans(g, i.g, j.g);
        var v := Lower(fs, e.matrix, env, j.g);
        if v.Made? && TypeOfEntry(i.v.ty, j.v.ty, StaticOf(v.v)).Typed? {
          FrameTrans(g, j.g, v.g);
          ThenEntry(g, v.g, i.v, j.v, v.v);
        }
      }
    }
  }

  lemma {:induction false} CrementFrame(fs: Functions, e: Expr, env: Env, g: Gen)
    requires e.Crement?
    ensures Good(g, Lower(fs, e, env, g), Check(fs, e, env))
    decreases e, 0
  {
    hide Frame, Loaded, Converted, EmitDef, Emit;
    LowerFrame(fs, e.variable, env, g);
    var a := Lower(fs, e.variable, env, g);
    if a.Made? && a.v.ptr && a.v.ty.IsScalar() && a.v.ty != Bool {
      var step := Const(if e.increment then 1 else -1);
      var x := Loaded(a.g, a.v);
      var one := Converted(x.g, step, Int32, a.v.ty);
      var i := Arith(one.g.regs, Plus, a.v.ty, x.o, one.o);
      var sum := EmitDef(one.g, i);
      ThenLoad(g, a.g, a.v);
      ThenConvert(g, x.g, step, Int32, a.v.ty);
      ThenDefine(g, one.g, i);
      ThenEmit(g, sum.g, Store(a.v.o, sum.o));
    }
  }

  lemma {:induction false} AssignmentFrame(fs: Functions, e: Expr, env: Env, g: Gen)
    requires e.Assign?
    ensures Good(g, Lower(fs, e, env, g), Check(fs, e, env))
    decreases e, 0
  {
    hide Frame, Taken, EmitBinary, EmitAssign;
    LowerFrame(fs, e.target, env, g);
    var a := Lower(fs, e.target, env, g);
    LowerFrame(fs, e.source, env, if a.Made? then a.g else g);
    if a.Made? {
      var b := Lower(fs, e.source, env, a.g);
      if b.Made? {
        FrameTrans(g, a.g, b.g);
        var v := if e.compound.None? then Made(b.g, b.v) else EmitBinary(b.g, e.compound.value, a.v, b.v);
        if e.compound.Some? {
          ThenBinary(g, b.g, e.compound.value, a.v, b.v);
        }
        if v.Made? && IsOperand(v.v.ty) {
          var x := Taken(v.g, v.v);
          ThenTaken(g, v.g, v.v);
          ThenAssign(g, x.g, a.v, x.o, v.v.ty);
        }
      }
    }
  }

  /** Load a condition, test it and branch. */
  function EmitTest(g: Gen, v: Val, ifTrue: nat, ifFalse: nat): (h: Gen)
    ensures |h.blocks| == |g.blocks|
  {
    var l := Loaded(g, v);
    var t := Tested(l.g, l.o, v.ty);
    Emit(t.g, CondBr(t.o, ifTrue, ifFalse))
  }

  lemma ThenTestBranch(g: Gen, h: Gen, v: Val, t: nat, f: nat)
    requires Frame(g, h) && Below(v.o, h.regs)
    ensures Frame(g, EmitTest(h, v, t, f)) && h.regs <= EmitTest(h, v, t, f).regs
    ensures var l := Loaded(h, v); Below(Tested(l.g, l.o, v.ty).o, EmitTest(h, v, t, f).regs)
  {
    hide Frame, Loaded, Tested;
    var l := Loaded(h, v);
    var x := Tested(l.g, l.o, v.ty);
    ThenLoad(g, h, v);
    ThenTest(g, l.g, l.o, v.ty);
    ThenEmit(g, x.g, CondBr(x.o, t, f));
  }

  lemma {:induction false} LogicalFrame(fs: Functions, e: Expr, env: Env, g: Gen)
    requires e.Logical?
    ensures Good(g, LowerLogical(fs, e, env, g), Check(fs, e, env))
    decreases e, 0
  {
    hide Frame, Loaded, Tested, EmitDef, Emit, Lower;
    var rhs := |g.blocks|;
    var ret := rhs + 1;
    NewBlockFrame(g, LogicalRhs);
    ThenBlock(g, NewBlock(g, LogicalRhs), LogicalReturn);
    var g0 := NewBlock(NewBlock(g, LogicalRhs), LogicalReturn);
    LowerFrame(fs, e.first, env, g0);
    var a := Lower(fs, e.first, env, g0);
    if a.Made? && a.v.ty.IsScalar() {
      FrameTrans(g, g0, a.g);
      var la := Loaded(a.g, a.v);
      var ta := Tested(la.g, la.o, a.v.ty);
      var br := if e.isAnd then CondBr(ta.o, rhs, ret) else CondBr(ta.o, ret, rhs);
      var g1 := Emit(ta.g, br);
      ThenLoad(g, a.g, a.v);
      ThenTest(g, la.g, la.o, a.v.ty);
      ThenEmit(g, ta.g, br);
      LowerFrame(fs, e.second, env, At(g1, rhs));
      var b := Lower(fs, e.second, env, At(g1, rhs));
      if b.Made? && b.v.ty.IsScalar() {
        FrameVia(g, g1, rhs, b.g);
        var lb := Loaded(b.g, b.v);
        var tb := Tested(lb.g, lb.o, b.v.ty);
        var g2 := Emit(tb.g, Br(ret));
        ThenLoad(g, b.g, b.v);
        ThenTest(g, lb.g, lb.o, b.v.ty);
        ThenEmit(g, tb.g, Br(ret));
        ThenAt(g, g2, ret);
        ThenDefine(g, At(g2, ret), Phi(g2.regs, [Arm(a.g.ip, ta.o), Arm(b.g.ip, tb.o)]));
      }
    }
  }

  lemma ThenInsert(g: Gen, h: Gen, b: nat, code: seq<Instr>, regs: nat)
    requires Frame(g, h) && |g.blocks| <= b < |h.blocks| && h.regs <= regs
    ensures Frame(g, InsertBefore(h, b, code).(regs := regs))
  {
  }

  lemma InsertNothing(g: Gen, b: nat)
    requires b < |g.blocks|
    ensures InsertBefore(g, b, []) == g
  {
    var code := g.blocks[b].code;
    if code != [] {
      assert code[..|code| - 1] + [] + code[|code| - 1..] == code;
    }
  }

  /** Inserting one more instruction. */
  lemma InsertMore(g: Gen, b: nat, code: seq<Instr>, i: Instr)
    requires b < |g.blocks| && g.blocks[b].code != []
    ensures InsertBefore(InsertBefore(g, b, code), b, [i]) == InsertBefore(g, b, code + [i])
  {
    var code0 := g.blocks[b].code;
    var n := |code0| - 1;
    var once := code0[..n] + code + code0[n..];
    assert once[..|once| - 1] == code0[..n] + code && once[|once| - 1..] == code0[n..];
    assert once[..|once| - 1] + [i] + once[|once| - 1..] == code0[..n] + (code + [i]) + code0[n..];
  }

  /** Insertion depends neither on the current block nor on the registers used so far. */
  lemma InsertAt(g: Gen, h: Gen, b: nat, code: seq<Instr>)
    requires b < |g.blocks| && g.blocks == h.blocks
    ensures InsertBefore(h, b, code) == Builder(InsertBefore(g, b, code).blocks, h.ip, h.regs)
  {
  }

  lemma InsertFills(g: Gen, b: nat, code: seq<Instr>, f: nat)
    requires b < |g.blocks| && f < |g.blocks| && Code(g, f) != []
    ensures Code(InsertBefore(g, b, code), f) != []
  {
  }

  lemma CoerceRegs(r: nat, v: Val, to: Static)
    ensures r <= CoerceCode(r, v, to).regs
  {
    if to.Typed? && v.ty.IsArray() { CellsCodeRegs(r, v.o, v.ty.elem, ElementOf(to.ty), v.ty.size); }
  }

  lemma {:induction false} CellsCodeRegs(r: nat, o: Operand, from: Ty, to: Ty, size: nat)
    ensures r <= CellsCode(r, o, from, to, size).regs
  {
    if size > 0 { CellsCodeRegs(r, o, from, to, size - 1); }
  }

  /** The inserted code only computes. */
  predicate OnlyComputes(code: seq<Instr>) {
    forall i | i in code :: i.Load? || i.Conv? || i.Element? || i.Pack?
  }

  lemma {:induction false} CellsCompute(r: nat, o: Operand, from: Ty, to: Ty, size: nat)
    ensures OnlyComputes(CellsCode(r, o, from, to, size).code)
  {
    if size > 0 { CellsCompute(r, o, from, to, size - 1); }
  }

  lemma CoerceComputes(r: nat, v: Val, to: Static)
    ensures OnlyComputes(CoerceCode(r, v, to).code)
  {
    if to.Typed? && v.ty.IsArray() { CellsCompute(r, v.o, v.ty.elem, ElementOf(to.ty), v.ty.size); }
  }

  lemma CoerceFrame(r: nat, v: Val, to: Static)
    requires Below(v.o, r)
    ensures var x := CoerceCode(r, v, to); r <= x.regs && Below(x.o, x.regs)
  {
    CoerceRegs(r, v, to);
  }

  /** The blocks that end the branches of a ternary are younger than the ternary. */
  lemma ThenJoin(g: Gen, ret: nat, tEnd: nat, t: Val, fEnd: nat, f: Val, h: Gen)
    requires Frame(g, h) && |g.blocks| <= ret < |h.blocks|
    requires |g.blocks| <= tEnd < |h.blocks| && |g.blocks| <= fEnd < |h.blocks|
    requires Below(t.o, h.regs) && Below(f.o, h.regs) && g.regs <= h.regs
    ensures Good(g, JoinTernary(ret, tEnd, t, fEnd, f, h), TypeOfTernary(StaticOf(t), StaticOf(f)))
  {
    hide Frame, InsertBefore, CoerceCode, EmitDef;
    var ty := TypeOfTernary(StaticOf(t), StaticOf(f));
    if ty.Typed? {
      var x := CoerceCode(h.regs, t, ty);
      var y := CoerceCode(x.regs, f, ty);
      CoerceFrame(h.regs, t, ty);
      CoerceFrame(x.regs, f, ty);
      var h1 := InsertBefore(h, tEnd, x.code);
      ThenInsert(g, h, tEnd, x.code, h.regs);
      ThenInsert(g, h1, fEnd, y.code, y.regs);
      var h2 := InsertBefore(h1, fEnd, y.code).(regs := y.regs);
      ThenAt(g, h2, ret);
      ThenDefine(g, At(h2, ret), Phi(h2.regs, [Arm(tEnd, x.o), Arm(fEnd, y.o)]));
    }
  }

  lemma {:induction false} TernaryFrame(fs: Functions, e: Expr, env: Env, g: Gen)
    requires e.Ternary?
    ensures Good(g, LowerTernary(fs, e, env, g), Check(fs, e, env))
    decreases e, 0, 1
  {
    hide Frame, Loaded, Tested, EmitDef, Emit, LowerBranches;
    var onTrue := |g.blocks|;
    NewBlockFrame(g, TernaryTrue);
    ThenBlock(g, NewBlock(g, TernaryTrue), TernaryFalse);
    ThenBlock(g, NewBlock(NewBlock(g, TernaryTrue), TernaryFalse), TernaryReturn);
    var g0 := NewBlock(NewBlock(NewBlock(g, TernaryTrue), TernaryFalse), TernaryReturn);
    LowerFrame(fs, e.cond, env, g0);
    var c := Lower(fs, e.cond, env, g0);
    if c.Made? && c.v.ty.IsScalar() {
      FrameTrans(g, g0, c.g);
      var lc := Loaded(c.g, c.v);
      var tc := Tested(lc.g, lc.o, c.v.ty);
      ThenLoad(g, c.g, c.v);
      ThenTest(g, lc.g, lc.o, c.v.ty);
      ThenEmit(g, tc.g, CondBr(tc.o, onTrue, onTrue + 1));
      BranchesFrame(fs, e, env, g, onTrue, c.v, Emit(tc.g, CondBr(tc.o, onTrue, onTrue + 1)));
    }
  }

  lemma {:induction false} BranchesFrame(fs: Functions, e: Expr, env: Env, g: Gen, onTrue: nat, cond: Val, h: Gen)
    requires e.Ternary? && |g.blocks| <= onTrue && onTrue + 2 < |h.blocks|
    requires Frame(g, h) && Below(cond.o, h.regs) && g.regs <= h.regs
    requires cond.ty.IsScalar() && Check(fs, e.cond, env) == StaticOf(cond)
    ensures Good(g, LowerBranches(fs, e, env, onTrue, cond, h), Check(fs, e, env))
    decreases e, 0, 0
  {
    hide Frame, EmitDef, Emit, JoinTernary, Lower;
    var onFalse := onTrue + 1;
    var ret := onTrue + 2;
    ThenAt(g, h, onTrue);
    var t := if e.onTrue.Some? then Lower(fs, e.onTrue.value, env, At(h, onTrue)) else Made(At(h, onTrue), cond);
    if e.onTrue.Some? {
      LowerFrame(fs, e.onTrue.value, env, At(h, onTrue));
      if t.Made? { FrameVia(g, h, onTrue, t.g); EndBlock(h, onTrue, t.g); }
    }
    if t.Made? {
      var g2 := Emit(t.g, Br(ret));
      ThenEmit(g, t.g, Br(ret));
      LowerFrame(fs, e.onFalse, env, At(g2, onFalse));
      var f := Lower(fs, e.onFalse, env, At(g2, onFalse));
      if f.Made? {
        FrameVia(g, g2, onFalse, f.g);
        EndBlock(g2, onFalse, f.g);
        ThenEmit(g, f.g, Br(ret));
        ThenJoin(g, ret, t.g.ip, t.v, f.g.ip, f.v, Emit(f.g, Br(ret)));
      }
    }
  }

  /** Code started in one block ends there or in a younger block. */
  lemma EndBlock(g: Gen, b: nat, h: Gen)
    requires b < |g.blocks| && Frame(At(g, b), h)
    ensures h.ip == b || |g.blocks| <= h.ip
    ensures g.regs <= h.regs
  {
  }

  lemma {:induction false} CommaFrame(fs: Functions, es: Exprs, env: Env, g: Gen)
    ensures Good(g, LowerComma(fs, es, env, g), CheckComma(fs, es, env))
    decreases es, 1
  {
    hide Frame;
    match es
    case NoExprs => FrameSelf(g);
    case ConsExpr(e, rest) =>
      LowerFrame(fs, e, env, g);
      var m := Lower(fs, e, env, g);
      if m.Made? && rest.ConsExpr? {
        CommaFrame(fs, rest, env, m.g);
        var r := LowerComma(fs, rest, env, m.g);
        if !r.Fail? { FrameTrans(g, m.g, r.g); }
      }
  }

  lemma {:induction false} ArgsFrame(fs: Functions, es: Exprs, env: Env, g: Gen)
    ensures var m := LowerArgs(fs, es, env, g);
            && (m.BadArgs? <==> CheckArgs(fs, es, env).None?)
            && (m.Args? ==> Frame(g, m.g) && g.regs <= m.g.regs)
            && (m.Args? ==> CheckArgs(fs, es, env) == Some(ArgTypes(m.vs)))
            && (m.Args? ==> forall i | 0 <= i < |m.vs| :: Below(m.vs[i].o, m.g.regs))
    decreases es, 1
  {
    hide Frame, Lower, Check;
    match es
    case NoExprs =>
      FrameSelf(g);
      assert ArgTypes([]) == [];
    case ConsExpr(e, rest) =>
      LowerFrame(fs, e, env, g);
      var m := Lower(fs, e, env, g);
      ArgsFrame(fs, rest, env, if m.Made? then m.g else g);
      if m.Made? && IsOperand(m.v.ty) {
        var ms := LowerArgs(fs, rest, env, m.g);
        if ms.Args? {
          FrameTrans(g, m.g, ms.g);
          assert ArgTypes([m.v] + ms.vs) == [ArgType(m.v.ty)] + ArgTypes(ms.vs);
        }
      }
  }

  lemma {:induction false} CallFrame(fs: Functions, e: Expr, env: Env, g: Gen)
    requires e.Call?
    ensures Good(g, Lower(fs, e, env, g), Check(fs, e, env))
    decreases e, 0
  {
    hide Frame, LoadAll, CastAll, EmitDef, Resolve;
    ArgsFrame(fs, e.args, env, g);
    var a := LowerArgs(fs, e.args, env, g);
    if e.callee in fs && a.Args? {
      var ts := ArgTypes(a.vs);
      var r := Resolve(fs[e.callee], ts);
      ResolveFits(fs[e.callee], ts);
      if r.target.Some? {
        var x := LoadAll(a.g, a.vs);
        ThenLoadAll(g, a.g, a.vs);
        var y := if r.kind == Implicit then CastAll(x.g, r.target.value.params, ts, x.os) else x;
        if r.kind == Implicit {
          ThenCastAll(g, x.g, r.target.value.params, ts, x.os);
        }
        ThenDefine(g, y.g, Invoke(y.g.regs, r.target.value, y.os));
      }
    }
  }

  lemma {:induction false} ThenConvertAll(g: Gen, h: Gen, ts: seq<Ty>, to: Ty, os: seq<Operand>)
    requires |ts| == |os| && Frame(g, h) && AllBelow(os, h.regs)
    ensures FramesAll(g, h, ConvertAll(h, ts, to, os))
    decreases |os|
  {
    hide Frame, Converted;
    if |os| > 0 {
      var n := |os| - 1;
      var es := ConvertAll(h, ts[..n], to, os[..n]);
      ThenConvertAll(g, h, ts[..n], to, os[..n]);
      ThenConvert(g, es.g, os[n], ts[n], to);
    }
  }

  lemma ThenPack(g: Gen, h: Gen, vs: seq<Val>)
    requires ScalarVals(vs) && Frame(g, h) && forall i | 0 <= i < |vs| :: Below(vs[i].o, h.regs)
    ensures var m := EmitPack(h, vs);
            Frame(g, m.g) && Below(m.v.o, m.g.regs) && h.regs <= m.g.regs && m.g.ip == h.ip
  {
    hide Frame, LoadAll, ConvertAll, EmitDef;
    var x := LoadAll(h, vs);
    var ts := ValTypes(vs);
    var y := ConvertAll(x.g, ts, PackType(ts), x.os);
    ThenLoadAll(g, h, vs);
    ThenConvertAll(g, x.g, ts, PackType(ts), x.os);
    ThenDefine(g, y.g, Pack(y.g.regs, y.os));
  }

  /** Scalar arguments have scalar types. */
  lemma ScalarArgs(vs: seq<Val>)
    requires forall v | v in vs :: IsOperand(v.ty)
    ensures AllScalars(ArgTypes(vs)) <==> ScalarVals(vs)
    ensures ScalarVals(vs) ==> ElementTypes(ArgTypes(vs)) == ValTypes(vs)
  {
    var ts := ArgTypes(vs);
    forall i | 0 <= i < |vs| ensures IsScalarValue(ts[i]) <==> vs[i].ty.IsScalar() {
      assert vs[i] in vs;
    }
    if AllScalars(ts) {
      forall i | 0 <= i < |vs| ensures vs[i].ty.IsScalar() {
        assert ts[i] in ts;
      }
    }
    if ScalarVals(vs) {
      forall i | 0 <= i < |vs| ensures ElementTypes(ts)[i] == vs[i].ty {
        assert vs[i] in vs;
      }
    }
  }

  lemma {:induction false} PackFrame(fs: Functions, e: Expr, env: Env, g: Gen)
    requires e.ArrayPack?
    ensures Good(g, Lower(fs, e, env, g), Check(fs, e, env))
    decreases e, 0
  {
    hide Frame, EmitPack;
    var es := e.elements;
    if es.ConsExpr? {
      if es.tail.NoExprs? {
        LowerFrame(fs, es.head, env, g);
      } else {
        ArgsFrame(fs, es, env, g);
        var a := LowerArgs(fs, es, env, g);
        if a.Args? {
          ScalarArgs(a.vs);
          if ScalarVals(a.vs) {
            ThenPack(g, a.g, a.vs);
            PackMade(a.g, a.vs);
          }
        }
      }
    }
  }

  lemma PackMade(g: Gen, vs: seq<Val>)
    requires ScalarVals(vs)
    ensures EmitPack(g, vs).v.ty == Vec(PackType(ValTypes(vs)), |vs|) && !EmitPack(g, vs).v.ptr
  {
    hide LoadAll, ConvertAll, EmitDef;
  }

  // ---------------------------------------------------------------------------------------
  // Statements

  lemma {:induction false} StmtFrame(fs: Functions, s: Stmt, env: Env, x: Option<Exits>, g: Gen)
    ensures var r := LowerStmt(fs, s, env, x, g);
            && (r.Some? <==> CheckStmt(fs, s, env, x.Some?))
            && (r.Some? ==> Frame(g, r.value))
    decreases s, 1
  {
    hide Frame, Taken, EmitAssign, LowerIf, LowerLoop;
    var r := LowerStmt(fs, s, env, x, g);
    match s
    case ExprStmt(e) => LowerFrame(fs, e, env, g);
    case Declare(ty, name, initial) =>
      FrameSelf(g);
      if CanDeclare(env, name) && initial.Some? {
        var env1 := Declared(env, ty, name);
        LowerFrame(fs, initial.value, env1, g);
        var m := Lower(fs, initial.value, env1, g);
        if m.Made? && IsOperand(m.v.ty) {
          var l := Taken(m.g, m.v);
          ThenTaken(g, m.g, m.v);
          ThenAssign(g, l.g, Val(Slot(env.slots), ty, true), l.o, m.v.ty);
        }
      }
    case Block(body) => StmtsFrame(fs, body, Push(env), x, g);
    case StatementList(ss) => StmtsFrame(fs, ss, env, x, g);
    case If(_, _, _) => IfFrame(fs, s, env, x, g);
    case Loop(_, _, _) => LoopFrame(fs, s, env, x, g);
    case Jump(_) => JumpFrame(fs, s, env, x, g);
  }

  lemma JumpFrame(fs: Functions, s: Stmt, env: Env, x: Option<Exits>, g: Gen)
    requires s.Jump?
    ensures var r := LowerStmt(fs, s, env, x, g); r.Some? ==> Frame(g, r.value)
  {
  }

  lemma {:induction false} StmtsFrame(fs: Functions, ss: Stmts, env: Env, x: Option<Exits>, g: Gen)
    ensures var r := LowerStmts(fs, ss, env, x, g);
            && (r.Some? <==> CheckStmts(fs, ss, env, x.Some?))
            && (r.Some? ==> Frame(g, r.value))
    decreases ss, 1
  {
    hide Frame;
    match ss
    case NoStmts => FrameSelf(g);
    case ConsStmt(s, rest) =>
      StmtFrame(fs, s, env, x, g);
      var r := LowerStmt(fs, s, env, x, g);
      if r.Some? {
        StmtsFrame(fs, rest, After(s, env), x, r.value);
        var q := LowerStmts(fs, rest, After(s, env), x, r.value);
        if q.Some? { FrameTrans(g, r.value, q.value); }
      }
  }

  lemma {:induction false} ConditionFrame(fs: Functions, c: Expr, env: Env, t: nat, f: nat, g: Gen)
    ensures var r := LowerCondition(fs, c, env, t, f, g);
            && (r.Some? <==> CheckCondition(fs, c, env))
            && (r.Some? ==> Frame(g, r.value))
    decreases c, 2
  {
    hide Frame, Loaded, Tested, Emit;
    LowerFrame(fs, c, env, g);
    var m := Lower(fs, c, env, g);
    if m.Made? && m.v.ty.IsScalar() {
      ThenTestBranch(g, m.g, m.v, t, f);
    }
  }

  lemma {:induction false} IfFrame(fs: Functions, s: Stmt, env: Env, x: Option<Exits>, g: Gen)
    requires s.If?
    ensures var r := LowerIf(fs, s, env, x, g);
            && (r.Some? <==> CheckStmt(fs, s, env, x.Some?))
            && (r.Some? ==> Frame(g, r.value))
    decreases s, 0
  {
    hide Frame, Emit, LowerCondition, LowerStmts, AfterList;
    var post := |g.blocks|;
    var thn := post + 1;
    var els := if s.onFalse.Some? then post + 2 else post;
    var g0 := NewBlock(NewBlock(g, PostIf), Then);
    var g1 := if s.onFalse.Some? then NewBlock(g0, Else) else g0;
    NewBlockFrame(g, PostIf);
    ThenBlock(g, NewBlock(g, PostIf), Then);
    ThenBlock(g, g0, Else);
    ConditionFrame(fs, s.cond, env, thn, els, g1);
    var c := LowerCondition(fs, s.cond, env, thn, els, g1);
    if c.Some? {
      FrameTrans(g, g1, c.value);
      StmtsFrame(fs, s.onTrue, Push(env), x, At(c.value, thn));
      var t := LowerStmts(fs, s.onTrue, Push(env), x, At(c.value, thn));
      if t.Some? {
        FrameVia(g, c.value, thn, t.value);
        var g2 := Emit(t.value, Br(post));
        ThenEmit(g, t.value, Br(post));
        ThenAt(g, g2, post);
        if s.onFalse.Some? {
          var env1 := env.(slots := AfterList(s.onTrue, Push(env)).slots);
          StmtsFrame(fs, s.onFalse.value, Push(env1), x, At(g2, els));
          var f := LowerStmts(fs, s.onFalse.value, Push(env1), x, At(g2, els));
          if f.Some? {
            FrameVia(g, g2, els, f.value);
            ThenEmit(g, f.value, Br(post));
            ThenAt(g, Emit(f.value, Br(post)), post);
          }
        }
      }
    }
  }

  predicate CheckHead(fs: Functions, s: Stmt, env: Env, inLoop: bool)
    requires s.Loop?
  {
    match s.kind
    case For(init, iteration) =>
      CheckStmts(fs, init, Push(env), inLoop) &&
      (iteration.Some? ==> !Check(fs, iteration.value, LoopEnv(s.kind, env)).Ill?)
    case While => true
    case Do => true
  }

  lemma {:induction false} HeadFrame(fs: Functions, s: Stmt, env: Env, x: Option<Exits>, cond: nat, body: nat, g: Gen)
    requires s.Loop?
    requires cond < |g.blocks| && body < |g.blocks|
    ensures var r := LowerHead(fs, s, env, x, cond, body, g);
            && (r.LoopHead? <==> CheckHead(fs, s, env, x.Some?))
            && (r.LoopHead? ==> Frame(g, r.g) && (r.next == cond || |g.blocks| <= r.next))
    decreases s, 0, 0
  {
    hide Frame, Emit;
    FrameSelf(g);
    match s.kind
    case While => ThenEmit(g, g, Br(cond));
    case Do => ThenEmit(g, g, Br(body));
    case For(init, iteration) =>
      StmtsFrame(fs, init, Push(env), x, g);
      var i := LowerStmts(fs, init, Push(env), x, g);
      if i.Some? {
        var g1 := Emit(i.value, Br(cond));
        ThenEmit(g, i.value, Br(cond));
        if iteration.Some? {
          var iter := |g1.blocks|;
          var g2 := NewBlock(g1, LoopIteration);
          ThenBlock(g, g1, LoopIteration);
          LowerFrame(fs, iteration.value, LoopEnv(s.kind, env), At(g2, iter));
          var m := Lower(fs, iteration.value, LoopEnv(s.kind, env), At(g2, iter));
          if !m.Fail? {
            FrameVia(g, g2, iter, m.g);
            ThenEmit(g, m.g, Br(cond));
          }
        }
      }
  }

  lemma {:induction false} LoopFrame(fs: Functions, s: Stmt, env: Env, x: Option<Exits>, g: Gen)
    requires s.Loop?
    ensures var r := LowerLoop(fs, s, env, x, g);
            && (r.Some? <==> CheckStmt(fs, s, env, x.Some?))
            && (r.Some? ==> Frame(g, r.value))
    decreases s, 0, 1
  {
    hide Frame, Emit, LowerCondition, LowerHead, LowerStmts, AfterList;
    var post := |g.blocks|;
    var cond := post + 1;
    var body := post + 2;
    var env1 := LoopEnv(s.kind, env);
    var g0 := NewBlock(NewBlock(NewBlock(g, PostLoop), LoopCondition), LoopBody);
    NewBlockFrame(g, PostLoop);
    ThenBlock(g, NewBlock(g, PostLoop), LoopCondition);
    ThenBlock(g, NewBlock(NewBlock(g, PostLoop), LoopCondition), LoopBody);
    HeadFrame(fs, s, env, x, cond, body, g0);
    var h := LowerHead(fs, s, env, x, cond, body, g0);
    if h.LoopHead? {
      FrameTrans(g, g0, h.g);
      var xs := Some(Exits(post, h.next));
      StmtsFrame(fs, s.body, Push(env1), xs, At(h.g, body));
      var b := LowerStmts(fs, s.body, Push(env1), xs, At(h.g, body));
      if b.Some? {
        FrameVia(g, h.g, body, b.value);
        var g2 := Emit(b.value, Br(h.next));
        ThenEmit(g, b.value, Br(h.next));
        ConditionFrame(fs, s.cond, env1, body, post, At(g2, cond));
        var c := LowerCondition(fs, s.cond, env1, body, post, At(g2, cond));
        if c.Some? {
          FrameVia(g, g2, cond, c.value);
          ThenAt(g, c.value, post);
        }
      }
    }
  }

  /** Generation succeeds exactly on the well-typed, well-scoped programs. */
  lemma GenerationSucceeds(fs: Functions, root: Stmts, env: Env, g: Gen)
    ensures LowerTree(fs, root, env, g).Some? <==> CheckStmt(fs, Block(root), env, false)
  {
    StmtFrame(fs, Block(root), env, None, g);
  }
}
