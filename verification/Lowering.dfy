/**
What the code generator produces, as a function of the syntax tree. The generator class is proved
to compute exactly this; the simulation and well-formedness theorems are proved about it.
*/
module Lowering {
  import opened Types
  import opened Ast
  import opened Overloads
  import opened Semantics
  import opened Cfg

  /** The function under construction: its blocks, the block instructions go to, and the number of
      registers used so far. */
  datatype Builder = Builder(blocks: seq<BasicBlock>, ip: nat, regs: nat)

  type Gen = b: Builder | b.ip < |b.blocks| witness Builder([BasicBlock(Entry, [])], 0, 0)

  /** An operand with its type; `ptr` marks the address of a variable that has not been loaded. */
  datatype Val = Val(o: Operand, ty: Ty, ptr: bool)

  function StaticOf(v: Val): Static {
    Typed(v.ty, v.ptr)
  }

  /** The result of visiting an expression: an error, success without a value, or a value. */
  datatype Made = Fail | Quiet(g: Gen) | Made(g: Gen, v: Val)

  /** What a visit leaves on the value stack. */
  function Pushed(m: Made): seq<Val> {
    if m.Made? then [m.v] else []
  }

  datatype Emitted = Emitted(g: Gen, o: Operand)

  datatype EmittedAll = EmittedAll(g: Gen, os: seq<Operand>)

  // ---------------------------------------------------------------------------------------
  // The builder

  function Code(g: Gen, b: nat): seq<Instr>
    requires b < |g.blocks|
  {
    g.blocks[b].code
  }

  function Emit(g: Gen, i: Instr): (h: Gen)
    ensures |h.blocks| == |g.blocks| && h.ip == g.ip && h.regs == g.regs
  {
    g.(blocks := g.blocks[g.ip := g.blocks[g.ip].(code := g.blocks[g.ip].code + [i])])
  }

  /** Emit an instruction that defines the next register. */
  function EmitDef(g: Gen, i: Instr): (e: Emitted)
    ensures |e.g.blocks| == |g.blocks| && e.g.ip == g.ip && e.g.regs == g.regs + 1
  {
    Emitted(Emit(g, i).(regs := g.regs + 1), Reg(g.regs))
  }

  function NewBlock(g: Gen, tag: Label): Gen {
    g.(blocks := g.blocks + [BasicBlock(tag, [])])
  }

  function At(g: Gen, b: nat): Gen
    requires b < |g.blocks|
  {
    g.(ip := b)
  }

  /** Insert instructions in front of the last instruction of a block. */
  function InsertBefore(g: Gen, b: nat, code: seq<Instr>): (h: Gen)
    requires b < |g.blocks|
    ensures |h.blocks| == |g.blocks| && h.ip == g.ip && h.regs == g.regs
  {
    var code0 := g.blocks[b].code;
    if |code0| == 0 then g
    else
      var n := |code0| - 1;
      g.(blocks := g.blocks[b := g.blocks[b].(code := code0[..n] + code + code0[n..])])
  }

  function Loaded(g: Gen, v: Val): (e: Emitted)
    ensures |e.g.blocks| == |g.blocks|
  {
    if v.ptr then EmitDef(g, Load(g.regs, v.o)) else Emitted(g, v.o)
  }

  /** An operand taken off the stack: scalars are loaded, arrays are handled through their pointer. */
  function Taken(g: Gen, v: Val): (e: Emitted)
    ensures |e.g.blocks| == |g.blocks|
  {
    if v.ty.IsArray() then Emitted(g, v.o) else Loaded(g, v)
  }

  function Converted(g: Gen, o: Operand, from: Ty, to: Ty): (e: Emitted)
    ensures |e.g.blocks| == |g.blocks|
  {
    if from == to then Emitted(g, o) else EmitDef(g, Conv(g.regs, from, to, o))
  }

  function Tested(g: Gen, o: Operand, ty: Ty): (e: Emitted)
    ensures |e.g.blocks| == |g.blocks|
  {
    EmitDef(g, Test(g.regs, ty, o))
  }

  /** The boolean conversion a cast to bool performs, otherwise an arithmetic conversion. */
  function CastTo(g: Gen, o: Operand, from: Ty, to: Ty): (e: Emitted)
    ensures |e.g.blocks| == |g.blocks|
  {
    if to == Bool then Tested(g, o, from) else Converted(g, o, from, to)
  }

  /** Load both operands, left first, make matrices of scalars that go with one, and apply the operator. */
  function EmitBinary(g: Gen, op: BinOp, a: Val, b: Val): (r: Made)
    ensures r.Made? ==> |r.g.blocks| == |g.blocks|
  {
    var lt, rt := Promotion(a.ty, b.ty), Promotion(b.ty, a.ty);
    var x := Taken(g, a);
    var y := Taken(x.g, b);
    var p := Promoted(y.g, x.o, a.ty, lt);
    var q := Promoted(p.g, y.o, b.ty, rt);
    EmitOperator(q.g, op, p.o, lt, q.o, rt)
  }

  /** A loaded scalar as a matrix. */
  function Promoted(g: Gen, o: Operand, from: Ty, to: Ty): (e: Emitted)
    ensures |e.g.blocks| == |g.blocks|
  {
    if from == to || !to.Vec? then Emitted(g, o)
    else
      var c := Converted(g, o, from, to.elem);
      EmitDef(c.g, Pack(c.g.regs, Spread(c.o, Const(0), to.size)))
  }

  function EmitOperator(g: Gen, op: BinOp, a: Operand, lt: Ty, b: Operand, rt: Ty): (r: Made)
    ensures r.Made? ==> |r.g.blocks| == |g.blocks|
  {
    if IsProduct(op, lt, rt) then
      var e := EmitProduct(g, a, lt, b, rt);
      Made(e.g, Val(e.o, Vec(ProductElem(lt, rt), ProductSize(lt, rt)), false))
    else
      match OperandType(op, lt, rt)
      case None => Fail
      case Some(t) =>
        var size := ZipSize(lt, rt);
        var e := if IsElementwise(op, lt, rt) then EmitZip(g, op, t, a, lt, b, rt, size)
                 else EmitArith(g, op, t, a, lt, b, rt);
        Made(e.g, Val(e.o, ResultType(op, t, size), false))
  }

  /** Cast both operands to the overload that is called. */
  function EmitProduct(g: Gen, a: Operand, lt: Ty, b: Operand, rt: Ty): (e: Emitted)
    requires lt.Vec? && rt.Vec?
    ensures |e.g.blocks| == |g.blocks|
  {
    var t := ProductElem(lt, rt);
    var x := EmitArrayCast(g, a, lt.elem, t, lt.size);
    var y := EmitArrayCast(x.g, b, rt.elem, t, rt.size);
    EmitDef(y.g, Product(y.g.regs, t, x.o, lt.size, y.o, rt.size, ProductSize(lt, rt)))
  }

  /** Convert two loaded operands and apply the operator. */
  function EmitArith(g: Gen, op: BinOp, t: Ty, a: Operand, lt: Ty, b: Operand, rt: Ty): (e: Emitted)
    ensures |e.g.blocks| == |g.blocks|
  {
    var p := Converted(g, a, lt, t);
    var q := Converted(p.g, b, rt, t);
    EmitDef(q.g, Arith(q.g.regs, op, t, p.o, q.o))
  }

  /** An element of an array; a scalar has been loaded and goes with every element. */
  function EmitElement(g: Gen, o: Operand, ty: Ty, i: nat): (e: Emitted)
    ensures |e.g.blocks| == |g.blocks|
  {
    if ty.IsArray() then EmitDef(g, Element(g.regs, o, i)) else Emitted(g, o)
  }

  /** Compute all elements, then compare them or pack them into a new array. */
  function EmitZip(g: Gen, op: BinOp, t: Ty, a: Operand, lt: Ty, b: Operand, rt: Ty, size: nat): (e: Emitted)
    ensures |e.g.blocks| == |g.blocks|
  {
    var es := EmitElements(g, op, t, a, lt, b, rt, size);
    if op.IsRelational() then EmitReduce(es.g, op, es.os) else EmitDef(es.g, Pack(es.g.regs, es.os))
  }

  function EmitElements(g: Gen, op: BinOp, t: Ty, a: Operand, lt: Ty, b: Operand, rt: Ty, size: nat): (e: EmittedAll)
    ensures |e.os| == size && |e.g.blocks| == |g.blocks|
    decreases size
  {
    if size == 0 then EmittedAll(g, [])
    else
      var es := EmitElements(g, op, t, a, lt, b, rt, size - 1);
      var x := EmitElement(es.g, a, lt, size - 1);
      var y := EmitElement(x.g, b, rt, size - 1);
      var e := EmitArith(y.g, op, t, x.o, ElementOf(lt), y.o, ElementOf(rt));
      EmittedAll(e.g, es.os + [e.o])
  }

  function EmitReduce(g: Gen, op: BinOp, os: seq<Operand>): (e: Emitted)
    ensures |e.g.blocks| == |g.blocks|
    decreases |os|
  {
    if |os| == 0 then Emitted(g, Const(0))
    else if |os| == 1 then Emitted(g, os[0])
    else
      var r := EmitReduce(g, op, os[..|os| - 1]);
      EmitDef(r.g, Arith(r.g.regs, ReduceOp(op), Bool, r.o, os[|os| - 1]))
  }

  /** Load all elements of an array, apply a unary operator to each and pack the results. */
  function EmitUnaryEach(g: Gen, op: UnOp, ty: Ty, o: Operand): (e: Emitted)
    requires ty.IsArray()
    ensures |e.g.blocks| == |g.blocks|
  {
    var x := Unpacked(g, o, ty.size);
    var y := EmitEach(x.g, op, ty.elem, x.os);
    EmitDef(y.g, Pack(y.g.regs, y.os))
  }

  function Unpacked(g: Gen, o: Operand, size: nat): (e: EmittedAll)
    ensures |e.os| == size && |e.g.blocks| == |g.blocks|
    decreases size
  {
    if size == 0 then EmittedAll(g, [])
    else
      var es := Unpacked(g, o, size - 1);
      var e := EmitDef(es.g, Element(es.g.regs, o, size - 1));
      EmittedAll(e.g, es.os + [e.o])
  }

  function EmitEach(g: Gen, op: UnOp, elem: Ty, os: seq<Operand>): (e: EmittedAll)
    ensures |e.os| == |os| && |e.g.blocks| == |g.blocks|
    decreases |os|
  {
    if |os| == 0 then EmittedAll(g, [])
    else
      var es := EmitEach(g, op, elem, os[..|os| - 1]);
      var e := EmitDef(es.g, Negate(es.g.regs, op, elem, os[|os| - 1]));
      EmittedAll(e.g, es.os + [e.o])
  }

  /** Store an operand of type `ty` through `target`, element by element if it is an array, or None when that
      is an error. */
  function EmitAssign(g: Gen, target: Val, o: Operand, ty: Ty): (r: Option<Gen>)
    ensures r.Some? ==> |r.value.blocks| == |g.blocks|
  {
    if !CanAssign(StaticOf(target), ty) then None
    else if target.ty.IsArray() then
      var from := Promotion(ty, target.ty);
      var p := Promoted(g, o, ty, from);
      Some(EmitCells(p.g, target.o, target.ty.elem, p.o, from, target.ty.size))
    else if target.ty == Bool then
      match EmitBinary(g, NotEquals, Val(Const(0), Int32, false), Val(o, ty, false))
      case Made(g1, v) => Some(Emit(g1, Store(target.o, v.o)))
      case _ => None
    else
      var c := Converted(g, o, ty, target.ty);
      Some(Emit(c.g, Store(target.o, c.o)))
  }

  function EmitCells(g: Gen, target: Operand, elem: Ty, o: Operand, ty: Ty, size: nat): (h: Gen)
    ensures |h.blocks| == |g.blocks|
    decreases size
  {
    if size == 0 then g
    else
      var before := EmitCells(g, target, elem, o, ty, size - 1);
      var l := EmitDef(before, Gep(before.regs, target, Const(size - 1)));
      var r := EmitElement(l.g, o, ty, size - 1);
      var c := Converted(r.g, r.o, ElementOf(ty), elem);
      Emit(c.g, Store(l.o, c.o))
  }

  /** The instructions that turn a value into one of static type `to`, and the operand they leave. */
  datatype Coercion = Coercion(code: seq<Instr>, o: Operand, regs: nat)

  datatype CoercionAll = CoercionAll(code: seq<Instr>, os: seq<Operand>, regs: nat)

  function LoadCode(r: nat, v: Val): Coercion {
    if v.ptr then Coercion([Load(r, v.o)], Reg(r), r + 1) else Coercion([], v.o, r)
  }

  function ConvCode(r: nat, o: Operand, from: Ty, to: Ty): Coercion {
    if from == to then Coercion([], o, r) else Coercion([Conv(r, from, to, o)], Reg(r), r + 1)
  }

  /** Load and convert the elements of an array, one after the other. */
  function CellsCode(r: nat, o: Operand, from: Ty, to: Ty, size: nat): (c: CoercionAll)
    ensures |c.os| == size
  {
    if size == 0 then CoercionAll([], [], r)
    else
      var c := CellsCode(r, o, from, to, size - 1);
      CoercionAll(c.code + [Element(c.regs, o, size - 1), Conv(c.regs + 1, from, to, Reg(c.regs))],
                  c.os + [Reg(c.regs + 1)], c.regs + 2)
  }

  function ArrayCastCode(r: nat, o: Operand, from: Ty, to: Ty, size: nat): Coercion {
    var c := CellsCode(r, o, from, to, size);
    Coercion(c.code + [Pack(c.regs, c.os)], Reg(c.regs), c.regs + 1)
  }

  /** A loaded scalar as an array. */
  function SpreadCode(r: nat, o: Operand, size: nat): Coercion {
    Coercion([Pack(r, Spread(o, Const(0), size))], Reg(r), r + 1)
  }

  function ScalarCode(r: nat, v: Val, to: Ty): Coercion {
    var x := LoadCode(r, v);
    var y := ConvCode(x.regs, x.o, v.ty, ElementOf(to));
    var z := if to.IsArray() then SpreadCode(y.regs, y.o, to.size) else Coercion([], y.o, y.regs);
    Coercion(x.code + y.code + z.code, z.o, z.regs)
  }

  function CoerceCode(r: nat, v: Val, to: Static): Coercion {
    if StaticOf(v) == to || !to.Typed? || (v.ty == to.ty && v.ty.IsArray()) then Coercion([], v.o, r)
    else if v.ty.IsArray() then ArrayCastCode(r, v.o, v.ty.elem, ElementOf(to.ty), v.ty.size)
    else ScalarCode(r, v, to.ty)
  }

  /** A unary operator other than plus, once its operand has been generated. */
  function EmitUnary(g: Gen, op: UnOp, v: Val): (e: Emitted)
    ensures |e.g.blocks| == |g.blocks|
  {
    if v.ty.IsArray() then EmitUnaryEach(g, op, v.ty, v.o)
    else
      var x := Loaded(g, v);
      var wide := if op == LogicalNot then v.ty else UnaryType(v.ty);
      var y := Converted(x.g, x.o, v.ty, wide);
      EmitDef(y.g, Negate(y.g.regs, op, wide, y.o))
  }

  /** An assignment once its target and its source have been generated. */
  function EmitAssigned(g: Gen, op: Option<BinOp>, a: Val, b: Val): (r: Option<Gen>)
    ensures r.Some? ==> |r.value.blocks| == |g.blocks|
  {
    var v := if op.None? then Made(g, b) else EmitBinary(g, op.value, a, b);
    if !v.Made? || !IsOperand(v.v.ty) then None
    else
      var x := Taken(v.g, v.v);
      EmitAssign(x.g, a, x.o, v.v.ty)
  }

  // ---------------------------------------------------------------------------------------
  // Expressions

  function Lower(fs: Functions, e: Expr, env: Env, g: Gen): (r: Made)
    ensures !r.Fail? ==> |g.blocks| <= |r.g.blocks|
    decreases e, 1
  {
    match e
    case Literal(ty, n) => if ty.IsScalar() then Made(g, Val(Const(n), ty, false)) else Fail
    case Local(name) => LowerVar(Lookup(env.scopes, Name(name)), g)
    case Attribute(ty, name) => LowerVar(LookupAttribute(env, Token(ty, name)), g)
    case Component(index, vec) =>
      var i := Lower(fs, index, env, g);
      if !i.Made? then Fail
      else
        var v := Lower(fs, vec, env, i.g);
        if !v.Made? || !v.v.ptr || !v.v.ty.Vec? || !i.v.ty.IsInteger() then Fail
        else
          var x := Loaded(v.g, i.v);
          var e := EmitDef(x.g, Gep(x.g.regs, v.v.o, x.o));
          Made(e.g, Val(e.o, v.v.ty.elem, true))
    case MatrixEntry(_, _, _) => LowerEntry(fs, e, env, g)
    case Unary(op, a) =>
      var r := Lower(fs, a, env, g);
      if op == UnaryPlus then r
      else if !r.Made? || !TypeOfUnary(op, r.v.ty).Typed? then Fail
      else
        var e := EmitUnary(r.g, op, r.v);
        Made(e.g, Val(e.o, TypeOfUnary(op, r.v.ty).ty, false))
    case Binary(op, l, r) =>
      var a := Lower(fs, l, env, g);
      if !a.Made? then Fail
      else
        var b := Lower(fs, r, env, a.g);
        if !b.Made? then Fail else EmitBinary(b.g, op, a.v, b.v)
    case Logical(_, _, _) => LowerLogical(fs, e, env, g)
    case Ternary(_, _, _) => LowerTernary(fs, e, env, g)
    case Comma(es) => if es.NoExprs? then Fail else LowerComma(fs, es, env, g)
    case Assign(l, op, r) =>
      var a := Lower(fs, l, env, g);
      if !a.Made? then Fail
      else
        var b := Lower(fs, r, env, a.g);
        if !b.Made? then Fail
        else
          var s := EmitAssigned(b.g, op, a.v, b.v);
          if s.Some? then Made(s.value, a.v) else Fail
    case Crement(v, increment, post) =>
      var a := Lower(fs, v, env, g);
      if !a.Made? || !a.v.ptr || !a.v.ty.IsScalar() || a.v.ty == Bool then Fail
      else
        var x := AddOne(a.g, a.v, increment);
        Made(x.g, if post then Val(x.o, a.v.ty, false) else a.v)
    case Cast(ty, inner) =>
      var a := Lower(fs, inner, env, g);
      if !a.Made? || !a.v.ty.IsScalar() || !ty.IsScalar() then Fail
      else if a.v.ty == ty then Quiet(a.g)
      else
        var x := Loaded(a.g, a.v);
        var y := CastTo(x.g, x.o, a.v.ty, ty);
        Made(y.g, Val(y.o, ty, false))
    case Call(f, args) =>
      if f !in fs then Fail
      else
        var a := LowerArgs(fs, args, env, g);
        if a.BadArgs? then Fail else EmitCall(fs[f], a.g, a.vs)
    case ArrayPack(es) =>
      if es.NoExprs? then Fail
      else if es.tail.NoExprs? then Lower(fs, es.head, env, g)
      else
        var a := LowerArgs(fs, es, env, g);
        if a.BadArgs? || !ScalarVals(a.vs) then Fail else EmitPack(a.g, a.vs)
  }

  function LowerEntry(fs: Functions, e: Expr, env: Env, g: Gen): (m: Made)
    requires e.MatrixEntry?
    ensures m.Made? ==> |g.blocks| <= |m.g.blocks|
    ensures !m.Quiet?
    decreases e, 0
  {
    var i := Lower(fs, e.row, env, g);
    if !i.Made? then Fail
    else
      var j := Lower(fs, e.column, env, i.g);
      if !j.Made? then Fail
      else
        var v := Lower(fs, e.matrix, env, j.g);
        if !v.Made? || !TypeOfEntry(i.v.ty, j.v.ty, StaticOf(v.v)).Typed? then Fail
        else
          var a := EmitEntry(v.g, i.v, j.v, v.v);
          Made(a.g, Val(a.o, ElementOf(v.v.ty), true))
  }

  /** Load the row and the column and compute the cell of a matrix. */
  function EmitEntry(g: Gen, row: Val, column: Val, m: Val): (e: Emitted)
    ensures |e.g.blocks| == |g.blocks|
  {
    var x := Loaded(g, row);
    var y := Loaded(x.g, column);
    var p := EmitDef(y.g, Arith(y.g.regs, Multiply, Int32, x.o, Const(Dimension(m.ty))));
    var q := EmitDef(p.g, Arith(p.g.regs, Plus, Int32, p.o, y.o));
    EmitDef(q.g, Gep(q.g.regs, m.o, q.o))
  }

  predicate ScalarVals(vs: seq<Val>) {
    forall v | v in vs :: v.ty.IsScalar()
  }

  function ValTypes(vs: seq<Val>): (ts: seq<Ty>)
    ensures ScalarVals(vs) ==> forall t | t in ts :: t.IsScalar()
  {
    seq(|vs|, i requires 0 <= i < |vs| => vs[i].ty)
  }

  /** Load all values, last to first, convert them to the highest type among them, and pack them. */
  function EmitPack(g: Gen, vs: seq<Val>): (m: Made)
    requires ScalarVals(vs)
    ensures m.Made? && |g.blocks| <= |m.g.blocks|
  {
    var x := LoadAll(g, vs);
    var ts := ValTypes(vs);
    var y := ConvertAll(x.g, ts, PackType(ts), x.os);
    var e := EmitDef(y.g, Pack(y.g.regs, y.os));
    Made(e.g, Val(e.o, Vec(PackType(ts), |vs|), false))
  }

  function ConvertAll(g: Gen, ts: seq<Ty>, to: Ty, os: seq<Operand>): (e: EmittedAll)
    requires |ts| == |os|
    ensures |e.os| == |os| && |e.g.blocks| == |g.blocks|
    decreases |os|
  {
    if |os| == 0 then EmittedAll(g, [])
    else
      var n := |os| - 1;
      var es := ConvertAll(g, ts[..n], to, os[..n]);
      var e := Converted(es.g, os[n], ts[n], to);
      EmittedAll(e.g, es.os + [e.o])
  }

  /** Add one to a variable, or subtract it; the operand is the value loaded before. */
  function AddOne(g: Gen, v: Val, increment: bool): (e: Emitted)
    ensures |e.g.blocks| == |g.blocks|
  {
    var x := Loaded(g, v);
    var one := Converted(x.g, Const(if increment then 1 else -1), Int32, v.ty);
    var sum := EmitDef(one.g, Arith(one.g.regs, Plus, v.ty, x.o, one.o));
    Emitted(Emit(sum.g, Store(v.o, sum.o)), x.o)
  }

  function LowerVar(v: Option<Var>, g: Gen): Made {
    if v.Some? then Made(g, Val(Slot(v.value.slot), v.value.ty, true)) else Fail
  }

  /** `&&` and `||`: the right operand has a block of its own, entered only when it is needed. */
  function LowerLogical(fs: Functions, e: Expr, env: Env, g: Gen): (m: Made)
    requires e.Logical?
    ensures !m.Fail? ==> |g.blocks| <= |m.g.blocks|
    ensures !m.Quiet?
    decreases e, 0
  {
    var rhs := |g.blocks|;
    var ret := rhs + 1;
    var a := Lower(fs, e.first, env, NewBlock(NewBlock(g, LogicalRhs), LogicalReturn));
    if !a.Made? || !a.v.ty.IsScalar() then Fail
    else
      var la := Loaded(a.g, a.v);
      var ta := Tested(la.g, la.o, a.v.ty);
      var g1 := Emit(ta.g, if e.isAnd then CondBr(ta.o, rhs, ret) else CondBr(ta.o, ret, rhs));
      var b := Lower(fs, e.second, env, At(g1, rhs));
      if !b.Made? || !b.v.ty.IsScalar() then Fail
      else
        var lb := Loaded(b.g, b.v);
        var tb := Tested(lb.g, lb.o, b.v.ty);
        var g2 := At(Emit(tb.g, Br(ret)), ret);
        var phi := EmitDef(g2, Phi(g2.regs, [Arm(a.g.ip, ta.o), Arm(b.g.ip, tb.o)]));
        Made(phi.g, Val(phi.o, Bool, false))
  }

  /** A ternary. Loads and conversions of the two values are known only once both branches have
      been generated, so they are inserted in front of the branches that end them. */
  function LowerTernary(fs: Functions, e: Expr, env: Env, g: Gen): (m: Made)
    requires e.Ternary?
    ensures !m.Fail? ==> |g.blocks| <= |m.g.blocks|
    ensures !m.Quiet?
    decreases e, 0, 1
  {
    var onTrue := |g.blocks|;
    var g0 := NewBlock(NewBlock(NewBlock(g, TernaryTrue), TernaryFalse), TernaryReturn);
    var c := Lower(fs, e.cond, env, g0);
    if !c.Made? || !c.v.ty.IsScalar() then Fail
    else
      var lc := Loaded(c.g, c.v);
      var tc := Tested(lc.g, lc.o, c.v.ty);
      LowerBranches(fs, e, env, onTrue, c.v, Emit(tc.g, CondBr(tc.o, onTrue, onTrue + 1)))
  }

  /** The two branches of a ternary. Without a true branch the condition itself is the value. */
  function LowerBranches(fs: Functions, e: Expr, env: Env, onTrue: nat, cond: Val, g: Gen): (m: Made)
    requires e.Ternary? && onTrue + 2 < |g.blocks|
    ensures !m.Fail? ==> |g.blocks| <= |m.g.blocks|
    ensures !m.Quiet?
    decreases e, 0, 0
  {
    var onFalse := onTrue + 1;
    var ret := onTrue + 2;
    var g1 := At(g, onTrue);
    var t := if e.onTrue.Some? then Lower(fs, e.onTrue.value, env, g1) else Made(g1, cond);
    if !t.Made? then Fail
    else
      var g2 := At(Emit(t.g, Br(ret)), onFalse);
      var f := Lower(fs, e.onFalse, env, g2);
      if !f.Made? then Fail
      else JoinTernary(ret, t.g.ip, t.v, f.g.ip, f.v, Emit(f.g, Br(ret)))
  }

  /** Bring both values of a ternary to one type in the blocks they come from and join them. */
  function JoinTernary(ret: nat, tEnd: nat, t: Val, fEnd: nat, f: Val, g: Gen): (m: Made)
    requires ret < |g.blocks| && tEnd < |g.blocks| && fEnd < |g.blocks|
    ensures m.Made? ==> |g.blocks| <= |m.g.blocks|
    ensures !m.Quiet?
  {
    var ty := TypeOfTernary(StaticOf(t), StaticOf(f));
    if !ty.Typed? then Fail
    else
      var x := CoerceCode(g.regs, t, ty);
      var y := CoerceCode(x.regs, f, ty);
      var g2 := Joined(g, ret, tEnd, x.code, fEnd, y.code, y.regs);
      // a ternary of void type acts as an if-else and has no value to join
      if StaticOf(t) == StaticOf(f) == Typed(Void, false) then Made(g2, f)
      else
        var phi := EmitDef(g2, Phi(g2.regs, [Arm(tEnd, x.o), Arm(fEnd, y.o)]));
        Made(phi.g, Val(phi.o, ty.ty, ty.ptr))
  }

  function Joined(g: Gen, ret: nat, tEnd: nat, x: seq<Instr>, fEnd: nat, y: seq<Instr>, regs: nat): (h: Gen)
    requires ret < |g.blocks| && tEnd < |g.blocks| && fEnd < |g.blocks|
    ensures |h.blocks| == |g.blocks|
  {
    At(InsertBefore(InsertBefore(g, tEnd, x), fEnd, y).(regs := regs), ret)
  }

  function LowerComma(fs: Functions, es: Exprs, env: Env, g: Gen): (m: Made)
    ensures !m.Fail? ==> |g.blocks| <= |m.g.blocks|
    decreases es, 1
  {
    match es
    case NoExprs => Quiet(g)
    case ConsExpr(e, rest) =>
      var m := Lower(fs, e, env, g);
      if !m.Made? then Fail
      else if rest.NoExprs? then m
      else LowerComma(fs, rest, env, m.g)
  }

  datatype MadeArgs = BadArgs | Args(g: Gen, vs: seq<Val>)

  function LowerArgs(fs: Functions, es: Exprs, env: Env, g: Gen): (m: MadeArgs)
    ensures m.Args? ==> |g.blocks| <= |m.g.blocks|
    ensures m.Args? ==> |m.vs| == Length(es) && forall v | v in m.vs :: IsOperand(v.ty)
    decreases es, 1
  {
    match es
    case NoExprs => Args(g, [])
    case ConsExpr(e, rest) =>
      var m := Lower(fs, e, env, g);
      if !m.Made? || !IsOperand(m.v.ty) then BadArgs
      else
        var ms := LowerArgs(fs, rest, env, m.g);
        if ms.BadArgs? then BadArgs else Args(ms.g, [m.v] + ms.vs)
  }

  function ArgTypes(vs: seq<Val>): seq<ArgTy> {
    seq(|vs|, i requires 0 <= i < |vs| => ArgType(vs[i].ty))
  }

  /** Arguments are taken off the stack, and so loaded, from the last to the first. */
  function LoadAll(g: Gen, vs: seq<Val>): (e: EmittedAll)
    ensures |e.os| == |vs|
    ensures |e.g.blocks| == |g.blocks|
    decreases |vs|
  {
    if |vs| == 0 then EmittedAll(g, [])
    else
      var x := Taken(g, vs[|vs| - 1]);
      var rest := LoadAll(x.g, vs[..|vs| - 1]);
      EmittedAll(rest.g, rest.os + [x.o])
  }

  /** Convert the elements of an array one after the other and pack them into a new array. */
  function EmitArrayCast(g: Gen, o: Operand, from: Ty, to: Ty, size: nat): (e: Emitted)
    ensures |e.g.blocks| == |g.blocks|
  {
    if from == to then Emitted(g, o)
    else
      var es := EmitCastCells(g, o, from, to, size);
      EmitDef(es.g, Pack(es.g.regs, es.os))
  }

  function EmitCastCells(g: Gen, o: Operand, from: Ty, to: Ty, size: nat): (e: EmittedAll)
    ensures |e.os| == size && |e.g.blocks| == |g.blocks|
    decreases size
  {
    if size == 0 then EmittedAll(g, [])
    else
      var es := EmitCastCells(g, o, from, to, size - 1);
      var l := EmitDef(es.g, Element(es.g.regs, o, size - 1));
      var c := EmitDef(l.g, Conv(l.g.regs, from, to, l.o));
      EmittedAll(c.g, es.os + [c.o])
  }

  /** Cast one argument to the type of its parameter. */
  function EmitArg(g: Gen, to: ArgTy, from: ArgTy, o: Operand): (e: Emitted)
    ensures |e.g.blocks| == |g.blocks|
  {
    if !from.Pointer? then CastTo(g, o, ElementType(from), ElementType(to))
    else EmitArrayCast(g, o, ElementOf(ElementType(from)), ElementOf(ElementType(to)), SizeBehind(from))
  }


  /** Cast each scalar argument to the type its parameter has. */
  function CastAll(g: Gen, params: seq<Parameter>, ts: seq<ArgTy>, os: seq<Operand>): (e: EmittedAll)
    requires |params| == |ts| == |os|
    ensures |e.os| == |os|
    ensures |e.g.blocks| == |g.blocks|
    decreases |os|
  {
    if |os| == 0 then EmittedAll(g, [])
    else
      var x := EmitArg(g, params[0].ty, ts[0], os[0]);
      var rest := CastAll(x.g, params[1..], ts[1..], os[1..]);
      EmittedAll(rest.g, [x.o] + rest.os)
  }

  function EmitCall(group: seq<Signature>, g: Gen, vs: seq<Val>): (m: Made)
    ensures m.Made? ==> |g.blocks| <= |m.g.blocks|
    ensures !m.Quiet?
  {
    var ts := ArgTypes(vs);
    var r := Resolve(group, ts);
    if r.target.None? then Fail
    else
      var sig := r.target.value;
      ResolveFits(group, ts);
      var x := LoadAll(g, vs);
      var y := if r.kind == Implicit then CastAll(x.g, sig.params, ts, x.os) else x;
      var e := EmitDef(y.g, Invoke(y.g.regs, sig, y.os));
      Made(e.g, Val(e.o, sig.result, false))
  }

  // ---------------------------------------------------------------------------------------
  // Statements

  /** Where `break` and `continue` go in the nearest enclosing loop. */
  datatype Exits = Exits(onBreak: nat, onContinue: nat)

  function LowerStmt(fs: Functions, s: Stmt, env: Env, x: Option<Exits>, g: Gen): (r: Option<Gen>)
    ensures r.Some? ==> |g.blocks| <= |r.value.blocks|
    decreases s, 1
  {
    match s
    case ExprStmt(e) =>
      var m := Lower(fs, e, env, g);
      if m.Fail? then None else Some(m.g)
    case Declare(ty, name, initial) =>
      if !CanDeclare(env, name) then None
      else if initial.None? then Some(g)
      else
        var m := Lower(fs, initial.value, Declared(env, ty, name), g);
        if !m.Made? || !IsOperand(m.v.ty) then None
        else
          var l := Taken(m.g, m.v);
          EmitAssign(l.g, Val(Slot(env.slots), ty, true), l.o, m.v.ty)
    case Block(body) => LowerStmts(fs, body, Push(env), x, g)
    case StatementList(ss) => LowerStmts(fs, ss, env, x, g)
    case If(_, _, _) => LowerIf(fs, s, env, x, g)
    case Loop(_, _, _) => LowerLoop(fs, s, env, x, g)
    case Jump(k) =>
      if k != Return && x.None? then None
      else
        var i := match k case Return => Ret case Break => Br(x.value.onBreak) case Continue => Br(x.value.onContinue);
        // whatever follows in this scope goes to a block nothing branches to
        Some(At(NewBlock(Emit(g, i), Null), |g.blocks|))
  }

  function LowerStmts(fs: Functions, ss: Stmts, env: Env, x: Option<Exits>, g: Gen): (r: Option<Gen>)
    ensures r.Some? ==> |g.blocks| <= |r.value.blocks|
    decreases ss, 1
  {
    match ss
    case NoStmts => Some(g)
    case ConsStmt(s, rest) =>
      var r := LowerStmt(fs, s, env, x, g);
      if r.None? then None else LowerStmts(fs, rest, After(s, env), x, r.value)
  }

  /** Evaluate a condition in the current block and branch on it. */
  function LowerCondition(fs: Functions, c: Expr, env: Env, ifTrue: nat, ifFalse: nat, g: Gen): (r: Option<Gen>)
    ensures r.Some? ==> |g.blocks| <= |r.value.blocks|
    decreases c, 2
  {
    var m := Lower(fs, c, env, g);
    if !m.Made? || !m.v.ty.IsScalar() then None
    else
      var l := Loaded(m.g, m.v);
      var t := Tested(l.g, l.o, m.v.ty);
      Some(Emit(t.g, CondBr(t.o, ifTrue, ifFalse)))
  }

  function LowerIf(fs: Functions, s: Stmt, env: Env, x: Option<Exits>, g: Gen): (r: Option<Gen>)
    requires s.If?
    ensures r.Some? ==> |g.blocks| <= |r.value.blocks|
    decreases s, 0
  {
    var post := |g.blocks|;
    var thn := post + 1;
    var els := if s.onFalse.Some? then post + 2 else post;
    var g0 := NewBlock(NewBlock(g, PostIf), Then);
    var g1 := if s.onFalse.Some? then NewBlock(g0, Else) else g0;
    var c := LowerCondition(fs, s.cond, env, thn, els, g1);
    if c.None? then None
    else
      var t := LowerStmts(fs, s.onTrue, Push(env), x, At(c.value, thn));
      if t.None? then None
      else
        var g2 := Emit(t.value, Br(post));
        if s.onFalse.None? then Some(At(g2, post))
        else
          var env1 := env.(slots := AfterList(s.onTrue, Push(env)).slots);
          var f := LowerStmts(fs, s.onFalse.value, Push(env1), x, At(g2, els));
          if f.None? then None else Some(At(Emit(f.value, Br(post)), post))
  }

  /** The code in front of a loop: the `for` initialiser and the branch into the loop, followed by
      the iteration block of a `for` that has one. The result is the builder and the block the
      body continues to. */
  datatype LoopHead = NoHead | LoopHead(g: Gen, next: nat)

  function LowerHead(fs: Functions, s: Stmt, env: Env, x: Option<Exits>, cond: nat, body: nat, g: Gen): (r: LoopHead)
    requires s.Loop?
    requires cond < |g.blocks| && body < |g.blocks|
    ensures r.LoopHead? ==> |g.blocks| <= |r.g.blocks| && r.next < |r.g.blocks|
    decreases s, 0, 0
  {
    match s.kind
    case While => LoopHead(Emit(g, Br(cond)), cond)
    case Do => LoopHead(Emit(g, Br(body)), cond)
    case For(init, iteration) =>
      var i := LowerStmts(fs, init, Push(env), x, g);
      if i.None? then NoHead
      else
        var g1 := Emit(i.value, Br(cond));
        if iteration.None? then LoopHead(g1, cond)
        else
          var iter := |g1.blocks|;
          var m := Lower(fs, iteration.value, LoopEnv(s.kind, env), At(NewBlock(g1, LoopIteration), iter));
          if m.Fail? then NoHead else LoopHead(Emit(m.g, Br(cond)), iter)
  }

  function LoopBlocks(g: Gen): Gen {
    NewBlock(NewBlock(NewBlock(g, PostLoop), LoopCondition), LoopBody)
  }

  function LowerLoop(fs: Functions, s: Stmt, env: Env, x: Option<Exits>, g: Gen): (r: Option<Gen>)
    requires s.Loop?
    ensures r.Some? ==> |g.blocks| <= |r.value.blocks|
    decreases s, 0, 1
  {
    var post := |g.blocks|;
    var cond := post + 1;
    var body := post + 2;
    var env1 := LoopEnv(s.kind, env);
    var h := LowerHead(fs, s, env, x, cond, body, LoopBlocks(g));
    if h.NoHead? then None
    else
      // the body is generated before the condition
      var b := LowerStmts(fs, s.body, Push(env1), Some(Exits(post, h.next)), At(h.g, body));
      if b.None? then None
      else
        var c := LowerCondition(fs, s.cond, env1, body, post, At(Emit(b.value, Br(h.next)), cond));
        if c.None? then None else Some(At(c.value, post))
  }

  /** A whole program: the root block followed by the final return. */
  function LowerTree(fs: Functions, root: Stmts, env: Env, g: Gen): Option<Gen> {
    var r := LowerStmt(fs, Block(root), env, None, g);
    if r.None? then None else Some(Emit(r.value, Ret))
  }
}
