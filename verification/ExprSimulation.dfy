/**
Expression compilation preserves meaning: the code generated for an expression, run in any function
that contains it, computes the reference value and leaves the reference state.
*/
module ExprSimulation {
  import opened Types
  import opened Ast
  import opened Overloads
  import opened Semantics
  import opened Cfg
  import opened Lowering
  import opened Frames
  import opened InstrSimulation

  /** The code of an expression does what the reference semantics says. */
  ghost predicate Simulates(m: Machine, c: Config, g: Gen, made: Made, r: Result, n: nat, d: Config) {
    && !made.Fail?
    && Moves(m, c, n, d, made.g, g.regs)
    && d.st == r.st
    && (made.Made? ==> Holds(made.v, r.v, d.regs))
  }

  /** The finished function contains everything generated between g and h. */
  ghost predicate Within(g: Gen, h: Gen, code: seq<BasicBlock>) {
    && |h.blocks| <= |code|
    && forall b | 0 <= b < |h.blocks| && (b == g.ip || |g.blocks| <= b) :: Code(h, b) <= code[b].code
  }

  lemma Split(g: Gen, a: Gen, h: Gen, code: seq<BasicBlock>)
    requires Frame(g, a) && Frame(a, h) && Within(g, h, code)
    ensures Within(g, a, code) && Within(a, h, code) && Embeds(a, code) && Embeds(h, code)
  {
    assert a.blocks[a.ip].code <= h.blocks[a.ip].code;
  }

  /** Generation that goes on in block b contains what was there before. */
  lemma WithinDetour(g: Gen, a: Gen, b: nat, h: Gen, code: seq<BasicBlock>)
    requires b < |a.blocks| && Frame(At(a, b), h) && Within(g, h, code)
    ensures Within(g, a, code)
  {
  }

  lemma RegionHere(g: Gen, h: Gen, code: seq<BasicBlock>)
    requires Within(g, h, code) && (h.ip == g.ip || |g.blocks| <= h.ip)
    ensures Embeds(h, code)
  {
  }

  /** A region that starts later is smaller. */
  lemma WithinLater(g: Gen, a: Gen, h: Gen, code: seq<BasicBlock>)
    requires Within(g, h, code) && |g.blocks| <= |a.blocks| && (a.ip == g.ip || |g.blocks| <= a.ip)
    ensures Within(a, h, code)
  {
  }

  /** For every expression, however it is nested, and every function its code is part of. */
  lemma {:induction false} SimExpr(m: Machine, e: Expr, env: Env, g: Gen, c: Config) returns (n: nat, d: Config)
    requires Stands(g, c)
    requires var r := Lower(m.cx.functions, e, env, g); !r.Fail? && Within(g, r.g, m.code)
    ensures Simulates(m, c, g, Lower(m.cx.functions, e, env, g), Eval(m.cx, e, env, c.st), n, d)
    decreases e, 1
  {
    hide Frame, Within, Embeds, Moves, Loaded, Taken, Converted, CastTo, Tested, EmitDef, Emit, EmitBinary,
      EmitUnaryEach, EmitAssign, EmitCall, EmitPack, AssignTo, BinaryResult, UnaryEach, CallEffect, CastArgs,
      ConvertEach, PackType;
    match e
    case Literal(_, _) =>
      MovesNot(m, c, g, g.regs);
      n, d := 0, c;
    case Local(_) =>
      MovesNot(m, c, g, g.regs);
      n, d := 0, c;
    case Attribute(_, _) =>
      MovesNot(m, c, g, g.regs);
      n, d := 0, c;
    case Component(_, _) => n, d := SimComponent(m, e, env, g, c);
    case MatrixEntry(_, _, _) => n, d := SimEntry(m, e, env, g, c);
    case Unary(_, _) => n, d := SimUnary(m, e, env, g, c);
    case Binary(_, _, _) => n, d := SimBinaryExpr(m, e, env, g, c);
    case Logical(_, _, _) => n, d := SimLogical(m, e, env, g, c);
    case Ternary(_, _, _) => n, d := SimTernary(m, e, env, g, c);
    case Comma(es) => n, d := SimComma(m, es, env, g, c);
    case Assign(_, _, _) => n, d := SimAssignExpr(m, e, env, g, c);
    case Crement(_, _, _) => n, d := SimCrement(m, e, env, g, c);
    case Cast(_, _) => n, d := SimCast(m, e, env, g, c);
    case Call(_, _) => n, d := SimCall(m, e, env, g, c);
    case ArrayPack(_) => n, d := SimPackExpr(m, e, env, g, c);
  }

  /** Two operands in a row: both values are still available after the second. */
  lemma {:induction false} SimBoth(m: Machine, e: Expr, l: Expr, r: Expr, env: Env, g: Gen, c: Config)
    returns (n: nat, d: Config)
    requires l < e && r < e && Stands(g, c)
    requires var a := Lower(m.cx.functions, l, env, g);
             a.Made? && var b := Lower(m.cx.functions, r, env, a.g); b.Made? && Within(g, b.g, m.code)
    ensures var a := Lower(m.cx.functions, l, env, g);
            var b := Lower(m.cx.functions, r, env, a.g);
            var x := Eval(m.cx, l, env, c.st);
            var y := Eval(m.cx, r, env, x.st);
            && Moves(m, c, n, d, b.g, g.regs) && d.st == y.st && g.regs <= b.g.regs
            && Holds(a.v, x.v, d.regs) && Below(a.v.o, b.g.regs) && Check(m.cx.functions, l, env) == StaticOf(a.v)
            && Holds(b.v, y.v, d.regs) && Below(b.v.o, b.g.regs) && Check(m.cx.functions, r, env) == StaticOf(b.v)
    decreases e, 0, 0
  {
    hide Frame, Within, Embeds, Moves, Stands, Keep, Lower, Eval, Check;
    var fs := m.cx.functions;
    var a := Lower(fs, l, env, g);
    var b := Lower(fs, r, env, a.g);
    LowerFrame(fs, l, env, g);
    LowerFrame(fs, r, env, a.g);
    Split(g, a.g, b.g, m.code);
    var n1, c1 := SimExpr(m, l, env, g, c);
    MovesStands(m, c, n1, c1, a.g, g.regs);
    var n2;
    n2, d := SimExpr(m, r, env, a.g, c1);
    MovesStands(m, c1, n2, d, b.g, a.g.regs);
    KeepHolds(a.v, Eval(m.cx, l, env, c.st).v, c1.regs, d.regs, a.g.regs);
    MovesOn(m, c, n1, c1, a.g, g.regs, n2, d, b.g, a.g.regs);
    n := n1 + n2;
  }

  lemma {:induction false} SimComponent(m: Machine, e: Expr, env: Env, g: Gen, c: Config) returns (n: nat, d: Config)
    requires e.Component? && Stands(g, c)
    requires var r := Lower(m.cx.functions, e, env, g); !r.Fail? && Within(g, r.g, m.code)
    ensures Simulates(m, c, g, Lower(m.cx.functions, e, env, g), Eval(m.cx, e, env, c.st), n, d)
    decreases e, 0
  {
    hide Frame, Within, Embeds, Moves, Stands, Keep, Loaded, EmitDef, Check, EmitBinary, EmitAssign, EmitCall,
      AddOne, LowerLogical, LowerTernary, LowerComma, LowerArgs, LowerBranches, EvalComma, EvalArgs, Resolve,
      BinaryResult, AssignTo, CastArgs;
    var fs := m.cx.functions;
    var i := Lower(fs, e.index, env, g);
    var v := Lower(fs, e.vec, env, i.g);
    var x := Loaded(v.g, i.v);
    var gep := Gep(x.g.regs, v.v.o, x.o);
    LowerFrame(fs, e.index, env, g);
    LowerFrame(fs, e.vec, env, i.g);
    FrameTrans(g, i.g, v.g);
    FrameSelf(v.g);
    ThenLoad(v.g, v.g, i.v);
    ThenDefine(v.g, x.g, gep);
    Split(g, v.g, EmitDef(x.g, gep).g, m.code);
    DefEmbeds(x.g, gep, m.code);
    var n1, c1 := SimBoth(m, e, e.index, e.vec, env, g, c);
    MovesStands(m, c, n1, c1, v.g, g.regs);
    var xi := Eval(m.cx, e.index, env, c.st);
    var xv := Eval(m.cx, e.vec, env, xi.st);
    var n2, c2 := SimLoaded(m, v.g, i.v, xi.v, c1);
    MovesStands(m, c1, n2, c2, x.g, v.g.regs);
    KeepHolds(v.v, xv.v, c1.regs, c2.regs, v.g.regs);
    d := StepDefine(m, x.g, gep, c2, Ptr(Address(xv.v.a.slot, Read(xv.st, xi.v))));
    LoadedRegs(v.g, i.v);
    MovesOn(m, c, n1, c1, v.g, g.regs, n2, c2, x.g, v.g.regs);
    MovesOn(m, c, n1 + n2, c2, x.g, g.regs, 1, d, EmitDef(x.g, gep).g, x.g.regs);
    n := n1 + n2 + 1;
  }

  lemma EntryEmbeds(g: Gen, row: Val, column: Val, m: Val, code: seq<BasicBlock>)
    requires Embeds(EmitEntry(g, row, column, m).g, code)
    ensures var x := Loaded(g, row);
            var y := Loaded(x.g, column);
            var p := EmitDef(y.g, Arith(y.g.regs, Multiply, Int32, x.o, Const(Dimension(m.ty))));
            var q := EmitDef(p.g, Arith(p.g.regs, Plus, Int32, p.o, y.o));
            Embeds(q.g, code) && Embeds(p.g, code) && Embeds(y.g, code) && Embeds(x.g, code)
  {
    hide Embeds, Loaded, EmitDef;
    var x := Loaded(g, row);
    var y := Loaded(x.g, column);
    var mul := Arith(y.g.regs, Multiply, Int32, x.o, Const(Dimension(m.ty)));
    var p := EmitDef(y.g, mul);
    var add := Arith(p.g.regs, Plus, Int32, p.o, y.o);
    var q := EmitDef(p.g, add);
    DefEmbeds(q.g, Gep(q.g.regs, m.o, q.o), code);
    DefEmbeds(p.g, add, code);
    DefEmbeds(y.g, mul, code);
    LoadedEmbeds(x.g, column, code);
  }

  /** The row and the column are loaded and the cell is computed from them. */
  lemma SimEmitEntry(m: Machine, g: Gen, i: Val, xi: Value, j: Val, xj: Value, v: Val, xv: Value, c: Config)
    returns (n: nat, d: Config)
    requires Stands(g, c) && Holds(i, xi, c.regs) && Holds(j, xj, c.regs) && Holds(v, xv, c.regs)
    requires i.ty == j.ty == Int32 && v.ptr && v.ty.IsMatrix()
    requires Below(i.o, g.regs) && Below(j.o, g.regs) && Below(v.o, g.regs)
    requires Embeds(EmitEntry(g, i, j, v).g, m.code)
    ensures var e := EmitEntry(g, i, j, v);
            && Moves(m, c, n, d, e.g, g.regs) && d.st == c.st
            && Fetch(d.regs, e.o) == Some(EntryOf(m.cx.ops, v.ty, xv, Read(c.st, xi), Read(c.st, xj)))
  {
    hide Embeds, Moves, Stands, Keep, Loaded, EmitDef;
    EntryEmbeds(g, i, j, v, m.code);
    var x := Loaded(g, i);
    var y := Loaded(x.g, j);
    var mul := Arith(y.g.regs, Multiply, Int32, x.o, Const(Dimension(v.ty)));
    var p := EmitDef(y.g, mul);
    var add := Arith(p.g.regs, Plus, Int32, p.o, y.o);
    var q := EmitDef(p.g, add);
    var gep := Gep(q.g.regs, v.o, q.o);
    LoadedRegs(g, i);
    LoadedRegs(x.g, j);
    var row, column := Read(c.st, xi), Read(c.st, xj);
    var n1, c1 := SimLoaded(m, g, i, xi, c);
    MovesStands(m, c, n1, c1, x.g, g.regs);
    KeepHolds(j, xj, c.regs, c1.regs, g.regs);
    var n2, c2 := SimLoaded(m, x.g, j, xj, c1);
    MovesStands(m, c1, n2, c2, y.g, x.g.regs);
    MovesOn(m, c, n1, c1, x.g, g.regs, n2, c2, y.g, x.g.regs);
    KeepFetch(x.o, c1.regs, c2.regs, x.g.regs);
    var n3, c3 := SimOffset(m, y.g, x.o, row, Dimension(v.ty), y.o, column, c2);
    MovesStands(m, c2, n3, c3, q.g, y.g.regs);
    MovesOn(m, c, n1 + n2, c2, y.g, g.regs, n3, c3, q.g, y.g.regs);
    MovesStands(m, c, n1 + n2 + n3, c3, q.g, g.regs);
    KeepHolds(v, xv, c.regs, c3.regs, g.regs);
    d := StepDefine(m, q.g, gep, c3, EntryOf(m.cx.ops, v.ty, xv, row, column));
    DefRegs(y.g, mul);
    DefRegs(p.g, add);
    MovesOn(m, c, n1 + n2 + n3, c3, q.g, g.regs, 1, d, EmitDef(q.g, gep).g, q.g.regs);
    n := n1 + n2 + n3 + 1;
  }

  lemma DefRegs(g: Gen, i: Instr)
    ensures EmitDef(g, i).g.regs == g.regs + 1
  {
  }

  lemma SimOffset(m: Machine, g: Gen, x: Operand, row: int, dim: int, y: Operand, column: int, c: Config)
    returns (n: nat, d: Config)
    requires Stands(g, c) && Fetch(c.regs, x) == Some(Num(row)) && Fetch(c.regs, y) == Some(Num(column))
    requires Below(y, g.regs)
    requires var p := EmitDef(g, Arith(g.regs, Multiply, Int32, x, Const(dim)));
             Embeds(p.g, m.code) && Embeds(EmitDef(p.g, Arith(p.g.regs, Plus, Int32, p.o, y)).g, m.code)
    ensures var p := EmitDef(g, Arith(g.regs, Multiply, Int32, x, Const(dim)));
            var q := EmitDef(p.g, Arith(p.g.regs, Plus, Int32, p.o, y));
            && Moves(m, c, n, d, q.g, g.regs) && d.st == c.st
            && Fetch(d.regs, q.o) ==
               Some(Num(m.cx.ops.bin(Plus, Int32, m.cx.ops.bin(Multiply, Int32, row, dim), column)))
  {
    hide Embeds, Moves, Stands, Keep;
    var mul := Arith(g.regs, Multiply, Int32, x, Const(dim));
    var p := EmitDef(g, mul);
    var add := Arith(p.g.regs, Plus, Int32, p.o, y);
    var k := m.cx.ops.bin(Multiply, Int32, row, dim);
    var c1 := StepDefine(m, g, mul, c, Num(k));
    MovesStands(m, c, 1, c1, p.g, g.regs);
    KeepFetch(y, c.regs, c1.regs, g.regs);
    d := StepDefine(m, p.g, add, c1, Num(m.cx.ops.bin(Plus, Int32, k, column)));
    MovesOn(m, c, 1, c1, p.g, g.regs, 1, d, EmitDef(p.g, add).g, p.g.regs);
    n := 2;
  }

  lemma LowersEntry(fs: Functions, e: Expr, env: Env, g: Gen)
    requires e.MatrixEntry? && !Lower(fs, e, env, g).Fail?
    ensures var i := Lower(fs, e.row, env, g);
            i.Made? && var j := Lower(fs, e.column, env, i.g);
            j.Made? && var v := Lower(fs, e.matrix, env, j.g);
            v.Made? && TypeOfEntry(i.v.ty, j.v.ty, StaticOf(v.v)).Typed? && var r := EmitEntry(v.g, i.v, j.v, v.v);
            Lower(fs, e, env, g) == Made(r.g, Val(r.o, ElementOf(v.v.ty), true))
  {
    hide EmitEntry, TypeOfEntry;
  }

  lemma EntryMeans(m: Machine, e: Expr, env: Env, st: State)
    requires e.MatrixEntry?
    ensures var i := Eval(m.cx, e.row, env, st);
            var j := Eval(m.cx, e.column, env, i.st);
            var v := Eval(m.cx, e.matrix, env, j.st);
            Eval(m.cx, e, env, st) ==
            Result(v.st, EntryOf(m.cx.ops, TyOf(m.cx.functions, e.matrix, env), v.v, Read(v.st, i.v), Read(v.st, j.v)))
  {
    hide EntryOf, Read, TyOf;
  }

  lemma EntryFits(ops: Ops, ty: Ty, v: Value, row: int, column: int)
    requires v.Ptr?
    ensures EntryOf(ops, ty, v, row, column).Ptr? && forall t :: Fits(EntryOf(ops, ty, v, row, column), t, true)
  {
  }

  lemma {:induction false} SimEntry(m: Machine, e: Expr, env: Env, g: Gen, c: Config) returns (n: nat, d: Config)
    requires e.MatrixEntry? && Stands(g, c)
    requires var r := Lower(m.cx.functions, e, env, g); !r.Fail? && Within(g, r.g, m.code)
    ensures Simulates(m, c, g, Lower(m.cx.functions, e, env, g), Eval(m.cx, e, env, c.st), n, d)
    decreases e, 0
  {
    hide Frame, Within, Embeds, Moves, Stands, Keep, Lower, Eval, Check, EmitEntry, EntryOf, Read;
    var fs := m.cx.functions;
    LowersEntry(fs, e, env, g);
    EntryMeans(m, e, env, c.st);
    var i := Lower(fs, e.row, env, g);
    var j := Lower(fs, e.column, env, i.g);
    var v := Lower(fs, e.matrix, env, j.g);
    var r := EmitEntry(v.g, i.v, j.v, v.v);
    LowerFrame(fs, e.row, env, g);
    LowerFrame(fs, e.column, env, i.g);
    LowerFrame(fs, e.matrix, env, j.g);
    FrameTrans(g, i.g, j.g);
    FrameTrans(g, j.g, v.g);
    FrameSelf(v.g);
    ThenEntry(v.g, v.g, i.v, j.v, v.v);
    Split(g, v.g, r.g, m.code);
    Split(g, j.g, v.g, m.code);
    var n1, c1 := SimBoth(m, e, e.row, e.column, env, g, c);
    MovesStands(m, c, n1, c1, j.g, g.regs);
    var xi := Eval(m.cx, e.row, env, c.st);
    var xj := Eval(m.cx, e.column, env, xi.st);
    var n2, c2 := SimExpr(m, e.matrix, env, j.g, c1);
    MovesStands(m, c1, n2, c2, v.g, j.g.regs);
    var xv := Eval(m.cx, e.matrix, env, xj.st);
    KeepHolds(i.v, xi.v, c1.regs, c2.regs, j.g.regs);
    KeepHolds(j.v, xj.v, c1.regs, c2.regs, j.g.regs);
    MovesOn(m, c, n1, c1, j.g, g.regs, n2, c2, v.g, j.g.regs);
    var n3;
    n3, d := SimEmitEntry(m, v.g, i.v, xi.v, j.v, xj.v, v.v, xv.v, c2);
    EntryFits(m.cx.ops, v.v.ty, xv.v, Read(xv.st, xi.v), Read(xv.st, xj.v));
    MovesOn(m, c, n1 + n2, c2, v.g, g.regs, n3, d, r.g, v.g.regs);
    n := n1 + n2 + n3;
  }

  lemma LowersUnary(fs: Functions, e: Expr, env: Env, g: Gen)
    requires e.Unary? && e.unOp != UnaryPlus && !Lower(fs, e, env, g).Fail?
    ensures var a := Lower(fs, e.operand, env, g);
            a.Made? && TypeOfUnary(e.unOp, a.v.ty).Typed? &&
            var r := EmitUnary(a.g, e.unOp, a.v);
            Lower(fs, e, env, g) == Made(r.g, Val(r.o, TypeOfUnary(e.unOp, a.v.ty).ty, false))
  {
    hide Loaded, Converted, EmitDef, EmitUnaryEach, TypeOfUnary;
  }

  lemma PlusIsOperand(m: Machine, e: Expr, env: Env, g: Gen, st: State)
    requires e.Unary? && e.unOp == UnaryPlus
    ensures Lower(m.cx.functions, e, env, g) == Lower(m.cx.functions, e.operand, env, g)
    ensures Eval(m.cx, e, env, st) == Eval(m.cx, e.operand, env, st)
  {
  }

  /** The value of a unary operator other than plus. */
  function UnaryValue(ops: Ops, op: UnOp, ty: Ty, x: Value, st: State): Value {
    if ty.IsArray() then Arr(UnaryEach(ops, op, ty.elem, x, st.mem, ty.size))
    else
      var wide := if op == LogicalNot then ty else UnaryType(ty);
      Num(ops.un(op, wide, Convert(ops, ty, wide, Read(st, x))))
  }

  lemma UnaryMeans(m: Machine, e: Expr, env: Env, st: State)
    requires e.Unary? && e.unOp != UnaryPlus
    ensures var a := Eval(m.cx, e.operand, env, st);
            Eval(m.cx, e, env, st) ==
            Result(a.st, UnaryValue(m.cx.ops, e.unOp, TyOf(m.cx.functions, e.operand, env), a.v, a.st))
  {
    hide UnaryEach, Read, TyOf;
  }

  lemma UnaryFits(ops: Ops, op: UnOp, ty: Ty, x: Value, st: State)
    requires TypeOfUnary(op, ty).Typed?
    ensures Fits(UnaryValue(ops, op, ty, x, st), TypeOfUnary(op, ty).ty, false)
  {
    hide UnaryEach, Convert, Read;
  }

  lemma ThenUnary(g: Gen, op: UnOp, v: Val)
    requires Below(v.o, g.regs)
    ensures Frame(g, EmitUnary(g, op, v).g)
  {
    hide Frame, Loaded, Converted, EmitDef, EmitUnaryEach;
    FrameSelf(g);
    if v.ty.IsArray() {
      ThenUnaryEach(g, g, op, v.ty, v.o);
    } else {
      var x := Loaded(g, v);
      var wide := if op == LogicalNot then v.ty else UnaryType(v.ty);
      var y := Converted(x.g, x.o, v.ty, wide);
      ThenLoad(g, g, v);
      ThenConvert(g, x.g, x.o, v.ty, wide);
      ThenDefine(g, y.g, Negate(y.g.regs, op, wide, y.o));
    }
  }

  lemma SimEmitUnary(m: Machine, op: UnOp, g: Gen, v: Val, xv: Value, c: Config) returns (n: nat, d: Config)
    requires Stands(g, c) && Holds(v, xv, c.regs) && Below(v.o, g.regs) && TypeOfUnary(op, v.ty).Typed?
    requires Embeds(EmitUnary(g, op, v).g, m.code)
    ensures var e := EmitUnary(g, op, v);
            Moves(m, c, n, d, e.g, g.regs) && d.st == c.st &&
            Fetch(d.regs, e.o) == Some(UnaryValue(m.cx.ops, op, v.ty, xv, c.st))
  {
    hide Frame, Embeds, Moves, Stands, Loaded, Converted, EmitDef, EmitUnaryEach, UnaryEach, Convert;
    if v.ty.IsArray() {
      n, d := SimUnaryEach(m, g, op, v.ty, v.o, xv, c);
    } else {
      n, d := SimNegate(m, op, g, v, xv, if op == LogicalNot then v.ty else UnaryType(v.ty), c);
    }
  }

  lemma {:induction false} SimUnary(m: Machine, e: Expr, env: Env, g: Gen, c: Config) returns (n: nat, d: Config)
    requires e.Unary? && Stands(g, c)
    requires var r := Lower(m.cx.functions, e, env, g); !r.Fail? && Within(g, r.g, m.code)
    ensures Simulates(m, c, g, Lower(m.cx.functions, e, env, g), Eval(m.cx, e, env, c.st), n, d)
    decreases e, 0
  {
    hide Frame, Within, Embeds, Moves, Stands, Keep, Check, Lower, Eval, EmitUnary, UnaryValue, TypeOfUnary, Fits;
    var fs := m.cx.functions;
    if e.unOp == UnaryPlus {
      PlusIsOperand(m, e, env, g, c.st);
      n, d := SimExpr(m, e.operand, env, g, c);
    } else {
      LowersUnary(fs, e, env, g);
      UnaryMeans(m, e, env, c.st);
      var a := Lower(fs, e.operand, env, g);
      var r := EmitUnary(a.g, e.unOp, a.v);
      LowerFrame(fs, e.operand, env, g);
      ThenUnary(a.g, e.unOp, a.v);
      Split(g, a.g, r.g, m.code);
      var n1, c1 := SimExpr(m, e.operand, env, g, c);
      MovesStands(m, c, n1, c1, a.g, g.regs);
      var x := Eval(m.cx, e.operand, env, c.st);
      var n2;
      n2, d := SimEmitUnary(m, e.unOp, a.g, a.v, x.v, c1);
      UnaryFits(m.cx.ops, e.unOp, a.v.ty, x.v, x.st);
      MovesOn(m, c, n1, c1, a.g, g.regs, n2, d, r.g, a.g.regs);
      n := n1 + n2;
    }
  }

  /** Load a value, widen it and apply a unary operator. */
  lemma SimNegate(m: Machine, op: UnOp, g: Gen, v: Val, xv: Value, wide: Ty, c: Config) returns (n: nat, d: Config)
    requires Stands(g, c) && Holds(v, xv, c.regs) && v.ty.IsScalar() && Below(v.o, g.regs)
    requires var x := Loaded(g, v);
             var y := Converted(x.g, x.o, v.ty, wide);
             Embeds(EmitDef(y.g, Negate(y.g.regs, op, wide, y.o)).g, m.code)
    ensures var x := Loaded(g, v);
            var y := Converted(x.g, x.o, v.ty, wide);
            var e := EmitDef(y.g, Negate(y.g.regs, op, wide, y.o));
            Moves(m, c, n, d, e.g, g.regs) && d.st == c.st &&
            Fetch(d.regs, e.o) == Some(Num(m.cx.ops.un(op, wide, Convert(m.cx.ops, v.ty, wide, Read(c.st, xv)))))
  {
    hide Embeds, Moves, Stands, Keep, Holds, Loaded, Converted, EmitDef, Frame, Convert;
    var x := Loaded(g, v);
    var y := Converted(x.g, x.o, v.ty, wide);
    var i := Negate(y.g.regs, op, wide, y.o);
    DefEmbeds(y.g, i, m.code);
    ConvertedEmbeds(x.g, x.o, v.ty, wide, m.code);
    var k := Read(c.st, xv);
    var n1, c1 := SimLoaded(m, g, v, xv, c);
    MovesStands(m, c, n1, c1, x.g, g.regs);
    var n2, c2 := SimConverted(m, x.g, x.o, v.ty, wide, k, c1);
    MovesStands(m, c1, n2, c2, y.g, x.g.regs);
    d := StepDefine(m, y.g, i, c2, Num(m.cx.ops.un(op, wide, Convert(m.cx.ops, v.ty, wide, k))));
    LoadedRegs(g, v);
    ConvertedRegs(x.g, x.o, v.ty, wide);
    MovesOn(m, c, n1, c1, x.g, g.regs, n2, c2, y.g, x.g.regs);
    MovesOn(m, c, n1 + n2, c2, y.g, g.regs, 1, d, EmitDef(y.g, i).g, y.g.regs);
    n := n1 + n2 + 1;
  }

  lemma {:induction false} SimBinaryExpr(m: Machine, e: Expr, env: Env, g: Gen, c: Config) returns (n: nat, d: Config)
    requires e.Binary? && Stands(g, c)
    requires var r := Lower(m.cx.functions, e, env, g); !r.Fail? && Within(g, r.g, m.code)
    ensures Simulates(m, c, g, Lower(m.cx.functions, e, env, g), Eval(m.cx, e, env, c.st), n, d)
    decreases e, 0
  {
    hide Frame, Within, Embeds, Moves, Stands, Keep, EmitBinary, Check, EmitCall, AddOne, LowerLogical,
      LowerTernary, LowerComma, LowerArgs, LowerBranches, EvalComma, EvalArgs, Resolve, CastArgs, BinaryResult;
    var fs := m.cx.functions;
    var a := Lower(fs, e.lhs, env, g);
    var b := Lower(fs, e.rhs, env, a.g);
    var r := EmitBinary(b.g, e.binOp, a.v, b.v);
    LowerFrame(fs, e.lhs, env, g);
    LowerFrame(fs, e.rhs, env, a.g);
    FrameSelf(b.g);
    FrameTrans(g, a.g, b.g);
    ThenBinary(b.g, b.g, e.binOp, a.v, b.v);
    Split(g, b.g, r.g, m.code);
    var n1, c1 := SimBoth(m, e, e.lhs, e.rhs, env, g, c);
    MovesStands(m, c, n1, c1, b.g, g.regs);
    var xa := Eval(m.cx, e.lhs, env, c.st);
    var xb := Eval(m.cx, e.rhs, env, xa.st);
    var n2;
    n2, d := SimBinary(m, b.g, e.binOp, a.v, xa.v, b.v, xb.v, c1);
    MovesOn(m, c, n1, c1, b.g, g.regs, n2, d, r.g, b.g.regs);
    n := n1 + n2;
    BinaryMade(b.g, e.binOp, a.v, b.v);
    BinaryFits(m.cx.ops, e.binOp, b.g, a.v, xa.v, b.v, xb.v, xb.st);
  }

  lemma AssignEmbeds(g: Gen, target: Val, o: Operand, ty: Ty, code: seq<BasicBlock>)
    requires var r := EmitAssign(g, target, o, ty); r.Some? && Embeds(r.value, code)
    ensures Embeds(g, code)
  {
    hide Embeds, EmitBinary, EmitCells, Converted, Emit, Promoted;
    if target.ty.IsArray() {
      var from := Promotion(ty, target.ty);
      var p := Promoted(g, o, ty, from);
      CellsEmbed(p.g, target.o, target.ty.elem, p.o, from, target.ty.size, code);
      PromotedEmbeds(g, o, ty, from, code);
    } else if target.ty == Bool {
      var zero, rhs := Val(Const(0), Int32, false), Val(o, ty, false);
      var m := EmitBinary(g, NotEquals, zero, rhs);
      EmitEmbeds(m.g, Store(target.o, m.v.o), code);
      BinaryEmbeds(g, NotEquals, zero, rhs, code);
    } else {
      var x := Converted(g, o, ty, target.ty);
      EmitEmbeds(x.g, Store(target.o, x.o), code);
      ConvertedEmbeds(g, o, ty, target.ty, code);
    }
  }

  lemma BinaryEmbeds(g: Gen, op: BinOp, a: Val, b: Val, code: seq<BasicBlock>)
    requires var r := EmitBinary(g, op, a, b); r.Made? && Embeds(r.g, code)
    ensures Embeds(g, code)
  {
    hide Embeds, Taken, Promoted, EmitOperator, Promotion;
    var lt, rt := Promotion(a.ty, b.ty), Promotion(b.ty, a.ty);
    var x := Taken(g, a);
    var y := Taken(x.g, b);
    var p := Promoted(y.g, x.o, a.ty, lt);
    var q := Promoted(p.g, y.o, b.ty, rt);
    OperatorEmbeds(q.g, op, p.o, lt, q.o, rt, code);
    PromotedEmbeds(p.g, y.o, b.ty, rt, code);
    PromotedEmbeds(y.g, x.o, a.ty, lt, code);
    TakenEmbeds(x.g, b, code);
    TakenEmbeds(g, a, code);
  }

  /** The value an assignment stores: its source, or the result of its compound operator. */
  lemma SimCompound(m: Machine, op: Option<BinOp>, g: Gen, a: Val, xa: Value, b: Val, xb: Value, c: Config)
    returns (n: nat, d: Config, k: Value)
    requires Stands(g, c) && Holds(a, xa, c.regs) && Holds(b, xb, c.regs)
    requires Below(a.o, g.regs) && Below(b.o, g.regs)
    requires var v := if op.None? then Made(g, b) else EmitBinary(g, op.value, a, b);
             v.Made? && IsOperand(v.v.ty) && Embeds(Taken(v.g, v.v).g, m.code)
    ensures k == if op.None? then Rvalue(c.st, xb, b.ty)
                 else BinaryResult(m.cx.ops, op.value, a.ty, xa, b.ty, xb, c.st)
    ensures var v := if op.None? then Made(g, b) else EmitBinary(g, op.value, a, b);
            var x := Taken(v.g, v.v);
            && Moves(m, c, n, d, x.g, g.regs) && d.st == c.st
            && Fetch(d.regs, x.o) == Some(k) && Below(x.o, x.g.regs) && g.regs <= x.g.regs
            && v.v.ty == (if op.None? then b.ty else CompoundType(op.value, a.ty, b.ty)) && IsRvalue(k, v.v.ty)
  {
    hide Frame, Within, Embeds, Moves, Stands, Keep, Taken, EmitBinary, BinaryResult, Rvalue;
    if op.None? {
      k := Rvalue(c.st, xb, b.ty);
      n, d := SimTaken(m, g, b, xb, c);
      TakenRegs(g, b);
      HeldIsRvalue(b, xb, c.regs, c.st);
    } else {
      k := BinaryResult(m.cx.ops, op.value, a.ty, xa, b.ty, xb, c.st);
      var v := EmitBinary(g, op.value, a, b);
      BinaryMade(g, op.value, a, b);
      BinaryFits(m.cx.ops, op.value, g, a, xa, b, xb, c.st);
      TakenEmbeds(v.g, v.v, m.code);
      FrameSelf(g);
      ThenBinary(g, g, op.value, a, b);
      var n1, c1 := SimBinary(m, g, op.value, a, xa, b, xb, c);
      MovesStands(m, c, n1, c1, v.g, g.regs);
      var n2;
      n2, d := SimTaken(m, v.g, v.v, k, c1);
      TakenRegs(v.g, v.v);
      MovesOn(m, c, n1, c1, v.g, g.regs, n2, d, Taken(v.g, v.v).g, v.g.regs);
      n := n1 + n2;
    }
  }

  /** The value of a binary operator has the shape its type promises. */
  lemma BinaryFits(ops: Ops, op: BinOp, g: Gen, a: Val, xa: Value, b: Val, xb: Value, st: State)
    requires EmitBinary(g, op, a, b).Made?
    ensures var v := EmitBinary(g, op, a, b).v;
            var k := BinaryResult(ops, op, a.ty, xa, b.ty, xb, st);
            Fits(k, v.ty, v.ptr) && Rvalue(st, k, v.ty) == k && IsRvalue(k, v.ty)
  {
    hide EmitZip, EmitArith, EmitProduct, Taken, Promoted, PromotedValue, Zip, Reduce, BinaryValue, CastArray;
  }

  lemma LowersAssign(fs: Functions, e: Expr, env: Env, g: Gen)
    requires e.Assign? && !Lower(fs, e, env, g).Fail?
    ensures var a := Lower(fs, e.target, env, g);
            a.Made? && var b := Lower(fs, e.source, env, a.g);
            b.Made? && var r := EmitAssigned(b.g, e.compound, a.v, b.v);
            r.Some? && Lower(fs, e, env, g) == Made(r.value, a.v)
  {
    hide EmitBinary, Taken, EmitAssign, IsOperand;
  }

  /** What an assignment leaves, given its operands. */
  function AssignResult(ops: Ops, op: Option<BinOp>, lt: Ty, a: Value, rt: Ty, b: Value, st: State): State {
    if op.None? then AssignTo(ops, st, a, lt, Rvalue(st, b, rt), rt)
    else AssignTo(ops, st, a, lt, BinaryResult(ops, op.value, lt, a, rt, b, st), CompoundType(op.value, lt, rt))
  }

  lemma AssignMeans(m: Machine, e: Expr, env: Env, st: State)
    requires e.Assign?
    ensures var a := Eval(m.cx, e.target, env, st);
            var b := Eval(m.cx, e.source, env, a.st);
            Eval(m.cx, e, env, st) ==
            Result(AssignResult(m.cx.ops, e.compound, TyOf(m.cx.functions, e.target, env), a.v,
                                TyOf(m.cx.functions, e.source, env), b.v, b.st), a.v)
  {
    hide AssignTo, Rvalue, BinaryResult, CompoundType, TyOf;
  }

  lemma AssignedFrame(g: Gen, op: Option<BinOp>, a: Val, b: Val)
    requires EmitAssigned(g, op, a, b).Some? && Below(a.o, g.regs) && Below(b.o, g.regs)
    ensures Frame(g, EmitAssigned(g, op, a, b).value)
  {
    hide Frame, Taken, EmitBinary, EmitAssign, IsOperand;
    var v := if op.None? then Made(g, b) else EmitBinary(g, op.value, a, b);
    var x := Taken(v.g, v.v);
    FrameSelf(g);
    if op.Some? { ThenBinary(g, g, op.value, a, b); }
    ThenTaken(g, v.g, v.v);
    ThenAssign(g, x.g, a, x.o, v.v.ty);
  }

  lemma SimAssigned(m: Machine, op: Option<BinOp>, g: Gen, a: Val, xa: Value, b: Val, xb: Value, c: Config)
    returns (n: nat, d: Config)
    requires Stands(g, c) && Holds(a, xa, c.regs) && Holds(b, xb, c.regs)
    requires Below(a.o, g.regs) && Below(b.o, g.regs)
    requires EmitAssigned(g, op, a, b).Some? && Embeds(EmitAssigned(g, op, a, b).value, m.code)
    ensures Moves(m, c, n, d, EmitAssigned(g, op, a, b).value, g.regs) && Holds(a, xa, d.regs)
    ensures d.st == AssignResult(m.cx.ops, op, a.ty, xa, b.ty, xb, c.st)
  {
    hide Frame, Within, Embeds, Moves, Stands, Keep, Holds, Taken, EmitBinary, EmitAssign, AssignTo, BinaryResult,
      Rvalue, IsOperand, IsRvalue, CompoundType;
    var v := if op.None? then Made(g, b) else EmitBinary(g, op.value, a, b);
    var x := Taken(v.g, v.v);
    var r := EmitAssign(x.g, a, x.o, v.v.ty).value;
    AssignEmbeds(x.g, a, x.o, v.v.ty, m.code);
    var n1, c1, k := SimCompound(m, op, g, a, xa, b, xb, c);
    MovesStands(m, c, n1, c1, x.g, g.regs);
    KeepHolds(a, xa, c.regs, c1.regs, g.regs);
    var n2;
    n2, d := SimAssign(m, x.g, a, xa, x.o, v.v.ty, k, c1);
    MovesStands(m, c1, n2, d, r, x.g.regs);
    KeepHolds(a, xa, c1.regs, d.regs, x.g.regs);
    MovesOn(m, c, n1, c1, x.g, g.regs, n2, d, r, x.g.regs);
    n := n1 + n2;
  }

  lemma {:induction false} SimAssignExpr(m: Machine, e: Expr, env: Env, g: Gen, c: Config) returns (n: nat, d: Config)
    requires e.Assign? && Stands(g, c)
    requires var r := Lower(m.cx.functions, e, env, g); !r.Fail? && Within(g, r.g, m.code)
    ensures Simulates(m, c, g, Lower(m.cx.functions, e, env, g), Eval(m.cx, e, env, c.st), n, d)
    decreases e, 0
  {
    hide Frame, Within, Embeds, Moves, Stands, Keep, Holds, Check, Lower, Eval, EmitAssigned, AssignResult;
    var fs := m.cx.functions;
    LowersAssign(fs, e, env, g);
    AssignMeans(m, e, env, c.st);
    var a := Lower(fs, e.target, env, g);
    var b := Lower(fs, e.source, env, a.g);
    var r := EmitAssigned(b.g, e.compound, a.v, b.v).value;
    LowerFrame(fs, e.target, env, g);
    LowerFrame(fs, e.source, env, a.g);
    FrameTrans(g, a.g, b.g);
    AssignedFrame(b.g, e.compound, a.v, b.v);
    Split(g, b.g, r, m.code);
    var n1, c1 := SimBoth(m, e, e.target, e.source, env, g, c);
    MovesStands(m, c, n1, c1, b.g, g.regs);
    var xa := Eval(m.cx, e.target, env, c.st);
    var xb := Eval(m.cx, e.source, env, xa.st);
    var n2;
    n2, d := SimAssigned(m, e.compound, b.g, a.v, xa.v, b.v, xb.v, c1);
    MovesOn(m, c, n1, c1, b.g, g.regs, n2, d, r, b.g.regs);
    n := n1 + n2;
  }

  lemma AddOneFrame(g: Gen, v: Val, increment: bool)
    requires Below(v.o, g.regs)
    ensures Frame(g, AddOne(g, v, increment).g)
  {
    hide Frame, Loaded, Converted, EmitDef, Emit;
    var one := Const(if increment then 1 else -1);
    var x := Loaded(g, v);
    var y := Converted(x.g, one, Int32, v.ty);
    var i := Arith(y.g.regs, Plus, v.ty, x.o, y.o);
    FrameSelf(g);
    ThenLoad(g, g, v);
    ThenConvert(g, x.g, one, Int32, v.ty);
    ThenDefine(g, y.g, i);
    ThenEmit(g, EmitDef(y.g, i).g, Store(v.o, EmitDef(y.g, i).o));
  }

  lemma SimAddOne(m: Machine, g: Gen, v: Val, xv: Value, increment: bool, c: Config) returns (n: nat, d: Config)
    requires Stands(g, c) && Holds(v, xv, c.regs) && v.ptr && v.ty.IsScalar() && Below(v.o, g.regs)
    requires Embeds(AddOne(g, v, increment).g, m.code)
    ensures var x := AddOne(g, v, increment);
            var k := Read(c.st, xv);
            var step := Convert(m.cx.ops, Int32, v.ty, if increment then 1 else -1);
            && Moves(m, c, n, d, x.g, g.regs) && d.st == Write(c.st, xv, m.cx.ops.bin(Plus, v.ty, k, step))
            && Fetch(d.regs, x.o) == Some(Num(k)) && Holds(v, xv, d.regs)
  {
    hide Frame, Within, Embeds, Moves, Stands, Keep, Loaded, Converted, EmitDef, Emit;
    var one := if increment then 1 else -1;
    var x := Loaded(g, v);
    var y := Converted(x.g, Const(one), Int32, v.ty);
    var i := Arith(y.g.regs, Plus, v.ty, x.o, y.o);
    var sum := EmitDef(y.g, i);
    var store := Store(v.o, sum.o);
    EmitEmbeds(sum.g, store, m.code);
    DefEmbeds(y.g, i, m.code);
    ConvertedEmbeds(x.g, Const(one), Int32, v.ty, m.code);
    LoadedRegs(g, v);
    ConvertedRegs(x.g, Const(one), Int32, v.ty);
    var k := Read(c.st, xv);
    var step := Convert(m.cx.ops, Int32, v.ty, one);
    var n1, c1 := SimLoaded(m, g, v, xv, c);
    MovesStands(m, c, n1, c1, x.g, g.regs);
    var n2, c2 := SimConverted(m, x.g, Const(one), Int32, v.ty, one, c1);
    MovesStands(m, c1, n2, c2, y.g, x.g.regs);
    KeepFetch(x.o, c1.regs, c2.regs, x.g.regs);
    var c3 := StepDefine(m, y.g, i, c2, Num(m.cx.ops.bin(Plus, v.ty, k, step)));
    MovesStands(m, c2, 1, c3, sum.g, y.g.regs);
    MovesOn(m, c, n1, c1, x.g, g.regs, n2, c2, y.g, x.g.regs);
    MovesOn(m, c, n1 + n2, c2, y.g, g.regs, 1, c3, sum.g, y.g.regs);
    MovesStands(m, c, n1 + n2 + 1, c3, sum.g, g.regs);
    KeepHolds(v, xv, c.regs, c3.regs, g.regs);
    KeepFetch(x.o, c2.regs, c3.regs, y.g.regs);
    d := StepNext(m, sum.g, store, c3, Write(c.st, xv, m.cx.ops.bin(Plus, v.ty, k, step)));
    MovesOn(m, c, n1 + n2 + 1, c3, sum.g, g.regs, 1, d, Emit(sum.g, store), sum.g.regs);
    n := n1 + n2 + 2;
    MovesStands(m, c, n, d, Emit(sum.g, store), g.regs);
    MovesStands(m, c3, 1, d, Emit(sum.g, store), sum.g.regs);
    KeepHolds(v, xv, c.regs, d.regs, g.regs);
    KeepFetch(x.o, c3.regs, d.regs, sum.g.regs);
  }

  lemma {:induction false} SimCrement(m: Machine, e: Expr, env: Env, g: Gen, c: Config) returns (n: nat, d: Config)
    requires e.Crement? && Stands(g, c)
    requires var r := Lower(m.cx.functions, e, env, g); !r.Fail? && Within(g, r.g, m.code)
    ensures Simulates(m, c, g, Lower(m.cx.functions, e, env, g), Eval(m.cx, e, env, c.st), n, d)
    decreases e, 0
  {
    hide Frame, Within, Embeds, Moves, Stands, Keep, Check, EmitBinary, EmitAssign, EmitCall, LowerLogical,
      LowerTernary, LowerComma, LowerArgs, LowerBranches, EvalComma, EvalArgs, Resolve, BinaryValue, AssignTo,
      CastArgs;
    var a := Lower(m.cx.functions, e.variable, env, g);
    LowerFrame(m.cx.functions, e.variable, env, g);
    AddOneFrame(a.g, a.v, e.increment);
    Split(g, a.g, AddOne(a.g, a.v, e.increment).g, m.code);
    var n1, c1 := SimExpr(m, e.variable, env, g, c);
    MovesStands(m, c, n1, c1, a.g, g.regs);
    var n2;
    n2, d := SimAddOne(m, a.g, a.v, Eval(m.cx, e.variable, env, c.st).v, e.increment, c1);
    MovesOn(m, c, n1, c1, a.g, g.regs, n2, d, AddOne(a.g, a.v, e.increment).g, a.g.regs);
    n := n1 + n2;
  }

  lemma {:induction false} SimCast(m: Machine, e: Expr, env: Env, g: Gen, c: Config) returns (n: nat, d: Config)
    requires e.Cast? && Stands(g, c)
    requires var r := Lower(m.cx.functions, e, env, g); !r.Fail? && Within(g, r.g, m.code)
    ensures Simulates(m, c, g, Lower(m.cx.functions, e, env, g), Eval(m.cx, e, env, c.st), n, d)
    decreases e, 0
  {
    hide Frame, Within, Embeds, Moves, Stands, Keep, Loaded, CastTo, Check, EmitBinary, EmitAssign, EmitCall,
      AddOne, LowerLogical, LowerTernary, LowerComma, LowerArgs, LowerBranches, EvalComma, EvalArgs, Resolve,
      BinaryResult, AssignTo, CastArgs;
    var fs := m.cx.functions;
    var a := Lower(fs, e.inner, env, g);
    LowerFrame(fs, e.inner, env, g);
    if a.v.ty == e.castTy {
      n, d := SimExpr(m, e.inner, env, g, c);
    } else {
      var x := Loaded(a.g, a.v);
      var y := CastTo(x.g, x.o, a.v.ty, e.castTy);
      FrameSelf(a.g);
      ThenLoad(a.g, a.g, a.v);
      ThenCast(a.g, x.g, x.o, a.v.ty, e.castTy);
      Split(g, a.g, y.g, m.code);
      CastToEmbeds(x.g, x.o, a.v.ty, e.castTy, m.code);
      var n1, c1 := SimExpr(m, e.inner, env, g, c);
      MovesStands(m, c, n1, c1, a.g, g.regs);
      var xa := Eval(m.cx, e.inner, env, c.st);
      var n2, c2 := SimLoaded(m, a.g, a.v, xa.v, c1);
      MovesStands(m, c1, n2, c2, x.g, a.g.regs);
      var n3;
      n3, d := SimCastTo(m, x.g, x.o, a.v.ty, e.castTy, Read(xa.st, xa.v), c2);
      LoadedRegs(a.g, a.v);
      MovesOn(m, c, n1, c1, a.g, g.regs, n2, c2, x.g, a.g.regs);
      MovesOn(m, c, n1 + n2, c2, x.g, g.regs, n3, d, y.g, x.g.regs);
      n := n1 + n2 + n3;
    }
  }

  lemma {:induction false} SimComma(m: Machine, es: Exprs, env: Env, g: Gen, c: Config) returns (n: nat, d: Config)
    requires Stands(g, c)
    requires var r := LowerComma(m.cx.functions, es, env, g); !r.Fail? && Within(g, r.g, m.code)
    ensures Simulates(m, c, g, LowerComma(m.cx.functions, es, env, g), EvalComma(m.cx, es, env, c.st), n, d)
    decreases es, 1
  {
    hide Frame, Within, Embeds, Moves, Stands, Keep, Lower, Eval, Holds, HoldAll, Below, Check;
    var fs := m.cx.functions;
    match es
    case NoExprs =>
      MovesNot(m, c, g, g.regs);
      n, d := 0, c;
    case ConsExpr(e, rest) =>
      var a := Lower(fs, e, env, g);
      LowerFrame(fs, e, env, g);
      if rest.NoExprs? {
        n, d := SimExpr(m, e, env, g, c);
      } else {
        var r := LowerComma(fs, rest, env, a.g);
        CommaFrame(fs, rest, env, a.g);
        Split(g, a.g, r.g, m.code);
        var n1, c1 := SimExpr(m, e, env, g, c);
        MovesStands(m, c, n1, c1, a.g, g.regs);
        var n2;
        n2, d := SimComma(m, rest, env, a.g, c1);
        MovesOn(m, c, n1, c1, a.g, g.regs, n2, d, r.g, a.g.regs);
        n := n1 + n2;
      }
  }

  lemma HoldNone(regs: Registers, k: nat)
    ensures HoldAll([], [], regs, k)
  {
  }

  lemma HoldFirst(v: Val, x: Value, vs: seq<Val>, xs: seq<Value>, regs: Registers, k: nat)
    requires Holds(v, x, regs) && v.ty != Void && Below(v.o, k) && HoldAll(vs, xs, regs, k)
    ensures HoldAll([v] + vs, [x] + xs, regs, k)
  {
    hide Holds, Below;
  }

  lemma {:induction false} SimArgs(m: Machine, es: Exprs, env: Env, g: Gen, c: Config) returns (n: nat, d: Config)
    requires Stands(g, c)
    requires var r := LowerArgs(m.cx.functions, es, env, g); r.Args? && Within(g, r.g, m.code)
    ensures var r := LowerArgs(m.cx.functions, es, env, g);
            var x := EvalArgs(m.cx, es, env, c.st);
            && Moves(m, c, n, d, r.g, g.regs) && d.st == x.st && g.regs <= r.g.regs
            && HoldAll(r.vs, x.vs, d.regs, r.g.regs)
    decreases es, 1
  {
    hide Frame, Within, Embeds, Moves, Stands, Keep, Lower, Eval, Holds, HoldAll, Below, Check;
    var fs := m.cx.functions;
    match es
    case NoExprs =>
      MovesNot(m, c, g, g.regs);
      n, d := 0, c;
      HoldNone(d.regs, g.regs);
    case ConsExpr(e, rest) =>
      var a := Lower(fs, e, env, g);
      var r := LowerArgs(fs, rest, env, a.g);
      LowerFrame(fs, e, env, g);
      ArgsFrame(fs, rest, env, a.g);
      Split(g, a.g, r.g, m.code);
      var n1, c1 := SimExpr(m, e, env, g, c);
      MovesStands(m, c, n1, c1, a.g, g.regs);
      var n2;
      n2, d := SimArgs(m, rest, env, a.g, c1);
      MovesStands(m, c1, n2, d, r.g, a.g.regs);
      var x, xs := Eval(m.cx, e, env, c.st), EvalArgs(m.cx, rest, env, c1.st);
      KeepHolds(a.v, x.v, c1.regs, d.regs, a.g.regs);
      BelowLater(a.v.o, a.g.regs, r.g.regs);
      HoldFirst(a.v, x.v, r.vs, xs.vs, d.regs, r.g.regs);
      MovesOn(m, c, n1, c1, a.g, g.regs, n2, d, r.g, a.g.regs);
      n := n1 + n2;
  }

  lemma BelowLater(o: Operand, k: nat, l: nat)
    requires Below(o, k) && k <= l
    ensures Below(o, l)
  {
  }

  lemma LowersCall(fs: Functions, e: Expr, env: Env, g: Gen)
    requires e.Call? && !Lower(fs, e, env, g).Fail?
    ensures e.callee in fs && LowerArgs(fs, e.args, env, g).Args?
    ensures var a := LowerArgs(fs, e.args, env, g); Lower(fs, e, env, g) == EmitCall(fs[e.callee], a.g, a.vs)
  {
    hide EmitCall, LowerArgs;
  }

  lemma CallValue(m: Machine, e: Expr, env: Env, ts: seq<ArgTy>, st: State)
    requires e.Call? && Check(m.cx.functions, e, env).Typed? && CheckArgs(m.cx.functions, e.args, env) == Some(ts)
    ensures e.callee in m.cx.functions && |ts| == Length(e.args)
    ensures var r := Resolve(m.cx.functions[e.callee], ts);
            var a := EvalArgs(m.cx, e.args, env, st);
            r.target.Some? && |r.target.value.params| == |ts| &&
            Eval(m.cx, e, env, st) ==
            CallEffect(m.cx.ops, r.target.value,
                       CastArgs(m.cx.ops, r.kind == Implicit, r.target.value.params, ts, Rvalues(a.st, a.vs, ts),
                                a.st.mem), a.st)
  {
    hide Resolve, CallEffect, CastArgs, Rvalues, EvalArgs;
    CheckArgsShape(m.cx.functions, e.args, env);
    ResolveFits(m.cx.functions[e.callee], ts);
  }

  lemma {:induction false} SimCall(m: Machine, e: Expr, env: Env, g: Gen, c: Config) returns (n: nat, d: Config)
    requires e.Call? && Stands(g, c)
    requires var r := Lower(m.cx.functions, e, env, g); !r.Fail? && Within(g, r.g, m.code)
    ensures Simulates(m, c, g, Lower(m.cx.functions, e, env, g), Eval(m.cx, e, env, c.st), n, d)
    decreases e, 0
  {
    hide Frame, Within, Embeds, Moves, Stands, Keep, Resolve, CallEffect, CastArgs, Lower, LowerArgs, Check, CheckArgs,
      Eval, EvalArgs, EmitCall, Rvalues, Fits;
    var fs := m.cx.functions;
    LowersCall(fs, e, env, g);
    var a := LowerArgs(fs, e.args, env, g);
    var r := EmitCall(fs[e.callee], a.g, a.vs);
    LowerFrame(fs, e, env, g);
    ArgsFrame(fs, e.args, env, g);
    EmitCallFrame(fs[e.callee], a.g, a.vs);
    Split(g, a.g, r.g, m.code);
    var n1, c1 := SimArgs(m, e.args, env, g, c);
    MovesStands(m, c, n1, c1, a.g, g.regs);
    var xs := EvalArgs(m.cx, e.args, env, c.st);
    var n2;
    n2, d := SimEmitCall(m, fs[e.callee], a.g, a.vs, xs.vs, c1);
    EffectFits(m, fs[e.callee], a.g, a.vs, xs.vs, xs.st);
    CallValue(m, e, env, ArgTypes(a.vs), c.st);
    MovesOn(m, c, n1, c1, a.g, g.regs, n2, d, r.g, a.g.regs);
    n := n1 + n2;
  }

  lemma {:induction false} SimPackExpr(m: Machine, e: Expr, env: Env, g: Gen, c: Config) returns (n: nat, d: Config)
    requires e.ArrayPack? && Stands(g, c)
    requires var r := Lower(m.cx.functions, e, env, g); !r.Fail? && Within(g, r.g, m.code)
    ensures Simulates(m, c, g, Lower(m.cx.functions, e, env, g), Eval(m.cx, e, env, c.st), n, d)
    decreases e, 0
  {
    hide Frame, Within, Embeds, Moves, Stands, Keep, EmitPack, ConvertEach, PackType;
    var fs := m.cx.functions;
    var es := e.elements;
    if es.tail.NoExprs? {
      n, d := SimExpr(m, es.head, env, g, c);
    } else {
      var a := LowerArgs(fs, es, env, g);
      var r := EmitPack(a.g, a.vs);
      ArgsFrame(fs, es, env, g);
      ScalarArgs(a.vs);
      FrameSelf(a.g);
      ThenPack(a.g, a.g, a.vs);
      PackMade(a.g, a.vs);
      Split(g, a.g, r.g, m.code);
      var n1, c1 := SimArgs(m, es, env, g, c);
      MovesStands(m, c, n1, c1, a.g, g.regs);
      var n2;
      n2, d := SimEmitPack(m, a.g, a.vs, EvalArgs(m.cx, es, env, c.st).vs, c1);
      MovesOn(m, c, n1, c1, a.g, g.regs, n2, d, r.g, a.g.regs);
      n := n1 + n2;
    }
  }

  /** The result of a call has the shape its type promises. */
  lemma EffectFits(m: Machine, group: seq<Signature>, g: Gen, vs: seq<Val>, xs: seq<Value>, st: State)
    requires EmitCall(group, g, vs).Made? && |xs| == |vs|
    ensures var r := Resolve(group, ArgTypes(vs));
            r.target.Some? && |r.target.value.params| == |vs| &&
            forall ys: seq<Value> | |ys| == |vs| ::
              Fits(CallEffect(m.cx.ops, r.target.value, ys, st).v, r.target.value.result, false)
    ensures var v := EmitCall(group, g, vs).v;
            v.ty == Resolve(group, ArgTypes(vs)).target.value.result && !v.ptr
  {
    hide LoadAll, CastAll, EmitDef, Resolve, PutBehind, Behind;
    ResolveFits(group, ArgTypes(vs));
  }

  lemma EmitCallFrame(group: seq<Signature>, g: Gen, vs: seq<Val>)
    requires EmitCall(group, g, vs).Made? && forall i | 0 <= i < |vs| :: Below(vs[i].o, g.regs)
    ensures Frame(g, EmitCall(group, g, vs).g)
  {
    hide Frame, LoadAll, CastAll, EmitDef, Resolve;
    var ts := ArgTypes(vs);
    var r := Resolve(group, ts);
    ResolveFits(group, ts);
    var x := LoadAll(g, vs);
    var y := if r.kind == Implicit then CastAll(x.g, r.target.value.params, ts, x.os) else x;
    FrameSelf(g);
    ThenLoadAll(g, g, vs);
    if r.kind == Implicit { ThenCastAll(g, x.g, r.target.value.params, ts, x.os); }
    ThenDefine(g, y.g, Invoke(y.g.regs, r.target.value, y.os));
  }

  lemma NewStands(g: Gen, c: Config, h: Gen)
    requires Stands(g, c) && h.ip == g.ip && Code(h, g.ip) == Code(g, g.ip)
    ensures Stands(h, c)
  {
  }

  lemma LowersLogical(fs: Functions, e: Expr, env: Env, g: Gen)
    requires e.Logical?
    ensures Lower(fs, e, env, g) == LowerLogical(fs, e, env, g)
  {
  }

  lemma LogicalValue(m: Machine, e: Expr, env: Env, st: State)
    requires e.Logical?
    ensures var a := Eval(m.cx, e.first, env, st);
            var x := Truth(m.cx.ops, TyOf(m.cx.functions, e.first, env), Read(a.st, a.v));
            var b := Eval(m.cx, e.second, env, a.st);
            Eval(m.cx, e, env, st) ==
              if (x == 1) != e.isAnd then Result(a.st, Num(x))
              else Result(b.st, Num(Truth(m.cx.ops, TyOf(m.cx.functions, e.second, env), Read(b.st, b.v))))
  {
  }

  /** Load an operand, test it, and end the block. */
  lemma TestThenEnd(g0: Gen, g: Gen, v: Val, i: Instr)
    requires Frame(g0, g) && Below(v.o, g.regs)
    ensures var l := Loaded(g, v);
            var t := Tested(l.g, l.o, v.ty);
            && Frame(g0, Emit(t.g, i)) && Frame(g, Emit(t.g, i))
            && t.g.ip == g.ip && g.regs <= t.g.regs && Below(t.o, t.g.regs)
  {
    hide Frame, Loaded, Tested, Emit;
    var l := Loaded(g, v);
    var t := Tested(l.g, l.o, v.ty);
    ThenLoad(g0, g, v);
    ThenTest(g0, l.g, l.o, v.ty);
    ThenEmit(g0, t.g, i);
    FrameSelf(g);
    ThenLoad(g, g, v);
    ThenTest(g, l.g, l.o, v.ty);
    ThenEmit(g, t.g, i);
  }

  /** The blocks of a logical operator: both targets are still empty when they are branched to, and the two
      operands end in different blocks. */
  lemma {:induction false} LogicalFrames(fs: Functions, e: Expr, env: Env, g: Gen, a: Made, ta: Emitted, br: Instr,
                                         g1: Gen, b: Made, tb: Emitted)
    requires e.Logical?
    requires a == Lower(fs, e.first, env, NewBlock(NewBlock(g, LogicalRhs), LogicalReturn))
    requires a.Made? && a.v.ty.IsScalar()
    requires var la := Loaded(a.g, a.v); ta == Tested(la.g, la.o, a.v.ty)
    requires g1 == Emit(ta.g, br) && b == Lower(fs, e.second, env, At(g1, |g.blocks|))
    requires b.Made? && b.v.ty.IsScalar()
    requires var lb := Loaded(b.g, b.v); tb == Tested(lb.g, lb.o, b.v.ty)
    ensures var rhs, ret := |g.blocks|, |g.blocks| + 1;
            var g2 := Emit(tb.g, Br(ret));
            && Frame(a.g, g1) && Frame(At(g1, rhs), b.g) && Frame(b.g, g2) && a.g.ip < |g1.blocks|
            && Code(g1, rhs) == [] && Code(g2, ret) == [] && a.g.ip != b.g.ip
            && (a.g.ip == g.ip || ret < a.g.ip) && (b.g.ip == rhs || ret < b.g.ip)
            && ta.g.ip == a.g.ip && tb.g.ip == b.g.ip && |g.blocks| + 2 <= |g1.blocks|
            && g.regs <= a.g.regs <= ta.g.regs <= b.g.regs <= tb.g.regs
            && Below(a.v.o, a.g.regs) && Below(b.v.o, b.g.regs) && Below(ta.o, ta.g.regs)
            && Check(fs, e.first, env) == StaticOf(a.v) && Check(fs, e.second, env) == StaticOf(b.v)
  {
    hide Loaded, Tested, EmitDef, Lower, Check;
    var rhs, ret := |g.blocks|, |g.blocks| + 1;
    var g0 := NewBlock(NewBlock(g, LogicalRhs), LogicalReturn);
    var g2 := Emit(tb.g, Br(ret));
    LowerFrame(fs, e.first, env, g0);
    TestThenEnd(g0, a.g, a.v, br);
    hide Frame, Emit;
    Untouched(g0, g1, rhs);
    Untouched(g0, g1, ret);
    Untouched(g0, a.g, rhs);
    Untouched(g0, a.g, ret);
    LowerFrame(fs, e.second, env, At(g1, rhs));
    TestThenEnd(At(g1, rhs), b.g, b.v, Br(ret));
    EndBlock(g1, rhs, b.g);
    Untouched(At(g1, rhs), g2, ret);
  }

  /** Every part of a logical operator is in the finished code. */
  lemma {:induction false} LogicalShape(fs: Functions, e: Expr, env: Env, g: Gen, a: Made, ta: Emitted, br: Instr,
                                        g1: Gen, b: Made, tb: Emitted, phi: Instr, code: seq<BasicBlock>)
    requires e.Logical?
    requires a == Lower(fs, e.first, env, NewBlock(NewBlock(g, LogicalRhs), LogicalReturn))
    requires a.Made? && a.v.ty.IsScalar()
    requires var la := Loaded(a.g, a.v); ta == Tested(la.g, la.o, a.v.ty)
    requires g1 == Emit(ta.g, br) && b == Lower(fs, e.second, env, At(g1, |g.blocks|))
    requires b.Made? && b.v.ty.IsScalar()
    requires var lb := Loaded(b.g, b.v); tb == Tested(lb.g, lb.o, b.v.ty)
    requires Within(g, EmitDef(At(Emit(tb.g, Br(|g.blocks| + 1)), |g.blocks| + 1), phi).g, code)
    ensures var rhs, ret := |g.blocks|, |g.blocks| + 1;
            var g2 := Emit(tb.g, Br(ret));
            && Within(NewBlock(NewBlock(g, LogicalRhs), LogicalReturn), a.g, code) && Embeds(ta.g, code) &&
              Embeds(g1, code)
            && Within(At(g1, rhs), b.g, code) && Embeds(tb.g, code) && Embeds(g2, code)
            && Embeds(EmitDef(At(g2, ret), phi).g, code)
  {
    hide Frame, Within, Embeds, Loaded, Tested, EmitDef, Emit, Lower, Check;
    var rhs, ret := |g.blocks|, |g.blocks| + 1;
    var g0 := NewBlock(NewBlock(g, LogicalRhs), LogicalReturn);
    var g2 := Emit(tb.g, Br(ret));
    LogicalFrames(fs, e, env, g, a, ta, br, g1, b, tb);
    FrameSelf(At(g2, ret));
    ThenDefine(At(g2, ret), At(g2, ret), phi);
    var last := EmitDef(At(g2, ret), phi).g;
    WithinDetour(g, g2, ret, last, code);
    WithinDetour(g, b.g, b.g.ip, g2, code);
    WithinDetour(g, g1, rhs, b.g, code);
    WithinDetour(g, a.g, a.g.ip, g1, code);
    WithinLater(g, g0, a.g, code);
    WithinLater(g, At(g1, rhs), b.g, code);
    RegionHere(g, last, code);
    RegionHere(g, g2, code);
    RegionHere(g, g1, code);
    EmitEmbeds(ta.g, br, code);
    EmitEmbeds(tb.g, Br(ret), code);
  }

  /** An operand of a logical operator: evaluate it and test it. */
  lemma {:induction false} SimOperand(m: Machine, e: Expr, operand: Expr, env: Env, g: Gen, c: Config)
    returns (n: nat, d: Config)
    requires operand < e && Stands(g, c)
    requires var a := Lower(m.cx.functions, operand, env, g);
             && a.Made? && a.v.ty.IsScalar() && Below(a.v.o, a.g.regs) && g.regs <= a.g.regs
             && var l := Loaded(a.g, a.v); Within(g, a.g, m.code) && Embeds(Tested(l.g, l.o, a.v.ty).g, m.code)
    ensures var a := Lower(m.cx.functions, operand, env, g);
            var l := Loaded(a.g, a.v);
            var t := Tested(l.g, l.o, a.v.ty);
            var x := Eval(m.cx, operand, env, c.st);
            && Moves(m, c, n, d, t.g, g.regs) && d.st == x.st && Stands(t.g, d)
            && Fetch(d.regs, t.o) == Some(Num(Truth(m.cx.ops, a.v.ty, Read(x.st, x.v))))
    decreases e, 0, 0
  {
    hide Frame, Within, Embeds, Moves, Stands, Keep, Loaded, Tested, Emit, Lower, Eval, Check;
    var a := Lower(m.cx.functions, operand, env, g);
    var l := Loaded(a.g, a.v);
    var t := Tested(l.g, l.o, a.v.ty);
    var n1, c1 := SimExpr(m, operand, env, g, c);
    MovesStands(m, c, n1, c1, a.g, g.regs);
    var n2;
    n2, d := SimLoadTest(m, a.g, a.v, Eval(m.cx, operand, env, c.st).v, c1);
    MovesStands(m, c1, n2, d, t.g, a.g.regs);
    MovesOn(m, c, n1, c1, a.g, g.regs, n2, d, t.g, a.g.regs);
    n := n1 + n2;
  }

  /** The right operand, followed by the branch to the block that joins both operands. */
  lemma {:induction false} SimSecond(m: Machine, e: Expr, env: Env, g: Gen, c: Config, ret: nat, to: Gen)
    returns (n: nat, d: Config)
    requires e.Logical? && Stands(g, c) && to.ip == ret && Code(to, ret) == []
    requires var b := Lower(m.cx.functions, e.second, env, g);
             && b.Made? && b.v.ty.IsScalar() && Below(b.v.o, b.g.regs) && g.regs <= b.g.regs
             && var lb := Loaded(b.g, b.v);
                var tb := Tested(lb.g, lb.o, b.v.ty);
                && Within(g, b.g, m.code) && Embeds(tb.g, m.code) && Embeds(Emit(tb.g, Br(ret)), m.code)
                && tb.g.ip == b.g.ip && b.g.regs <= tb.g.regs
    ensures var b := Lower(m.cx.functions, e.second, env, g);
            var lb := Loaded(b.g, b.v);
            var tb := Tested(lb.g, lb.o, b.v.ty);
            var xb := Eval(m.cx, e.second, env, c.st);
            && Moves(m, c, n, d, to, g.regs) && d.st == xb.st && d.prev == b.g.ip
            && Fetch(d.regs, tb.o) == Some(Num(Truth(m.cx.ops, b.v.ty, Read(xb.st, xb.v))))
    decreases e, 0, 1
  {
    hide Frame, Within, Embeds, Moves, Stands, Keep, Loaded, Tested, Emit, Lower, Eval, Check;
    var b := Lower(m.cx.functions, e.second, env, g);
    var lb := Loaded(b.g, b.v);
    var tb := Tested(lb.g, lb.o, b.v.ty);
    var n1, c1 := SimOperand(m, e, e.second, env, g, c);
    d := StepJump(m, tb.g, Br(ret), c1, ret, to);
    MovesOn(m, c, n1, c1, tb.g, g.regs, 1, d, to, tb.g.regs);
    n := n1 + 1;
  }

  /** The left operand, followed by the branch it decides. */
  lemma {:induction false} SimFirst(m: Machine, e: Expr, env: Env, g: Gen, c: Config, t: nat, f: nat, to: Gen)
    returns (n: nat, d: Config)
    requires e.Logical? && Stands(g, c) && Code(to, to.ip) == []
    requires var a := Lower(m.cx.functions, e.first, env, g);
             && a.Made? && a.v.ty.IsScalar() && Below(a.v.o, a.g.regs) && g.regs <= a.g.regs
             && var la := Loaded(a.g, a.v);
                var ta := Tested(la.g, la.o, a.v.ty);
                && Within(g, a.g, m.code) && Embeds(ta.g, m.code) && Embeds(Emit(ta.g, CondBr(ta.o, t, f)), m.code)
                && ta.g.ip == a.g.ip && a.g.regs <= ta.g.regs && Below(ta.o, ta.g.regs)
    requires var a := Lower(m.cx.functions, e.first, env, g);
             var xa := Eval(m.cx, e.first, env, c.st);
             to.ip == if Truth(m.cx.ops, a.v.ty, Read(xa.st, xa.v)) != 0 then t else f
    ensures var a := Lower(m.cx.functions, e.first, env, g);
            var la := Loaded(a.g, a.v);
            var ta := Tested(la.g, la.o, a.v.ty);
            var xa := Eval(m.cx, e.first, env, c.st);
            && Moves(m, c, n, d, to, g.regs) && d.st == xa.st && d.prev == a.g.ip && Stands(to, d)
            && Fetch(d.regs, ta.o) == Some(Num(Truth(m.cx.ops, a.v.ty, Read(xa.st, xa.v))))
    decreases e, 0, 1
  {
    hide Frame, Within, Embeds, Moves, Stands, Keep, Loaded, Tested, Emit, Lower, Eval, Check;
    var a := Lower(m.cx.functions, e.first, env, g);
    var xa := Eval(m.cx, e.first, env, c.st);
    var la := Loaded(a.g, a.v);
    var ta := Tested(la.g, la.o, a.v.ty);
    var n1, c1 := SimOperand(m, e, e.first, env, g, c);
    d := StepCond(m, ta.g, ta.o, t, f, c1, Truth(m.cx.ops, a.v.ty, Read(xa.st, xa.v)), to);
    MovesStands(m, c1, 1, d, to, ta.g.regs);
    MovesOn(m, c, n1, c1, ta.g, g.regs, 1, d, to, ta.g.regs);
    n := n1 + 1;
  }

  lemma {:induction false} SimLogical(m: Machine, e: Expr, env: Env, g: Gen, c: Config) returns (n: nat, d: Config)
    requires e.Logical? && Stands(g, c)
    requires var r := Lower(m.cx.functions, e, env, g); !r.Fail? && Within(g, r.g, m.code)
    ensures Simulates(m, c, g, Lower(m.cx.functions, e, env, g), Eval(m.cx, e, env, c.st), n, d)
    decreases e, 0, 2
  {
    hide Frame, Within, Embeds, Moves, Stands, Keep, Loaded, Tested, EmitDef, Emit, Eval, Check, Execute, Run;
    LowersLogical(m.cx.functions, e, env, g);
    hide Lower;
    var fs := m.cx.functions;
    var rhs, ret := |g.blocks|, |g.blocks| + 1;
    var g0 := NewBlock(NewBlock(g, LogicalRhs), LogicalReturn);
    var a := Lower(fs, e.first, env, g0);
    var la := Loaded(a.g, a.v);
    var ta := Tested(la.g, la.o, a.v.ty);
    var br := if e.isAnd then CondBr(ta.o, rhs, ret) else CondBr(ta.o, ret, rhs);
    var g1 := Emit(ta.g, br);
    var b := Lower(fs, e.second, env, At(g1, rhs));
    var lb := Loaded(b.g, b.v);
    var tb := Tested(lb.g, lb.o, b.v.ty);
    var g2 := Emit(tb.g, Br(ret));
    var phi := Phi(g2.regs, [Arm(a.g.ip, ta.o), Arm(b.g.ip, tb.o)]);
    LogicalFrames(fs, e, env, g, a, ta, br, g1, b, tb);
    LogicalShape(fs, e, env, g, a, ta, br, g1, b, tb, phi, m.code);
    LogicalValue(m, e, env, c.st);
    NewStands(g, c, g0);
    var xa := Eval(m.cx, e.first, env, c.st);
    var k := Truth(m.cx.ops, a.v.ty, Read(xa.st, xa.v));
    if (k == 1) != e.isAnd {
      var n1, c1 := SimFirst(m, e, env, g0, c, br.ifTrue, br.ifFalse, At(g2, ret));
      d := StepPhi(m, At(g2, ret), phi.arms[0], phi.arms[1], c1, Num(k));
      MovesOn(m, c, n1, c1, At(g2, ret), g.regs, 1, d, EmitDef(At(g2, ret), phi).g, g2.regs);
      n := n1 + 1;
    } else {
      var n1, c1 := SimFirst(m, e, env, g0, c, br.ifTrue, br.ifFalse, At(g1, rhs));
      var n2, c2 := SimSecond(m, e, env, At(g1, rhs), c1, ret, At(g2, ret));
      var xb := Eval(m.cx, e.second, env, xa.st);
      MovesOn(m, c, n1, c1, At(g1, rhs), g.regs, n2, c2, At(g2, ret), g1.regs);
      MovesStands(m, c1, n2, c2, At(g2, ret), g1.regs);
      d := StepPhi(m, At(g2, ret), phi.arms[0], phi.arms[1], c2, Num(Truth(m.cx.ops, b.v.ty, Read(xb.st, xb.v))));
      MovesOn(m, c, n1 + n2, c2, At(g2, ret), g.regs, 1, d, EmitDef(At(g2, ret), phi).g, g2.regs);
      n := n1 + n2 + 1;
    }
  }

  // ---------------------------------------------------------------------------------------
  // Ternaries

  /** The instructions about to be executed. */
  ghost predicate Ahead(m: Machine, c: Config, code: seq<Instr>) {
    && c.block < |m.code| && c.pc + |code| <= |m.code[c.block].code|
    && forall i | 0 <= i < |code| :: m.code[c.block].code[c.pc + i] == code[i]
  }

  lemma StepAhead(m: Machine, c: Config, code: seq<Instr>)
    requires Ahead(m, c, code) && |code| > 0
    ensures Step(m, c) == Execute(m, c, code[0])
    ensures Ahead(m, c.(pc := c.pc + 1), code[1..])
  {
    assert m.code[c.block].code[c.pc + 0] == code[0];
  }

  lemma DefineAhead(m: Machine, c: Config, code: seq<Instr>, r: nat, x: Value) returns (d: Config)
    requires Ahead(m, c, code) && |code| > 0 && Execute(m, c, code[0]) == Define(c, r, x)
    ensures Run(m, c, 1) == Running(d) && Ahead(m, d, code[1..])
    ensures d == c.(pc := c.pc + 1, regs := c.regs[r := x])
    ensures Keep(c.regs, d.regs, r)
  {
    hide Execute;
    StepAhead(m, c, code);
    d := c.(pc := c.pc + 1, regs := c.regs[r := x]);
    RunOne(m, c, d);
  }

  /** Straight-line code has run up to `rest`. */
  ghost predicate Came(m: Machine, c: Config, n: nat, d: Config, r: nat, rest: seq<Instr>) {
    && Run(m, c, n) == Running(d) && Ahead(m, d, rest) && Keep(c.regs, d.regs, r)
    && d.st == c.st && d.io == c.io && d.block == c.block
  }

  lemma CameOn(m: Machine, c: Config, n: nat, d: Config, r: nat, code: seq<Instr>, n1: nat, e: Config, r1: nat,
               rest: seq<Instr>)
    requires Came(m, c, n, d, r, code) && Came(m, d, n1, e, r1, rest) && r <= r1
    ensures Came(m, c, n + n1, e, r, rest)
  {
    RunThen(m, c, n, d, n1);
  }

  lemma CameNot(m: Machine, c: Config, r: nat, rest: seq<Instr>)
    requires Ahead(m, c, rest)
    ensures Came(m, c, 0, c, r, rest)
  {
  }

  /** One instruction that defines a register. */
  lemma CameOne(m: Machine, c: Config, i: Instr, rest: seq<Instr>, r: nat, x: Value) returns (d: Config)
    requires Ahead(m, c, [i] + rest) && Execute(m, c, i) == Define(c, r, x)
    ensures Came(m, c, 1, d, r, rest) && d.regs == c.regs[r := x]
  {
    hide Execute, Ahead;
    var code := [i] + rest;
    d := DefineAhead(m, c, code, r, x);
    assert code[1..] == rest;
  }

  lemma SimLoadCode(m: Machine, r: nat, v: Val, xv: Value, rest: seq<Instr>, c: Config) returns (n: nat, d: Config)
    requires Holds(v, xv, c.regs) && (v.ptr || v.ty != Void) && !v.ty.IsArray() && Below(v.o, r)
    requires Ahead(m, c, LoadCode(r, v).code + rest)
    ensures Came(m, c, n, d, r, rest) && Fetch(d.regs, LoadCode(r, v).o) == Some(Num(Read(c.st, xv)))
  {
    hide Ahead;
    if v.ptr {
      n := 1;
      d := CameOne(m, c, Load(r, v.o), rest, r, Num(Read(c.st, xv)));
    } else {
      assert [] + rest == rest;
      n, d := 0, c;
      CameNot(m, c, r, rest);
    }
  }

  lemma SimConvCode(m: Machine, r: nat, o: Operand, from: Ty, to: Ty, k: int, rest: seq<Instr>, c: Config)
    returns (n: nat, d: Config)
    requires Fetch(c.regs, o) == Some(Num(k)) && Ahead(m, c, ConvCode(r, o, from, to).code + rest)
    ensures Came(m, c, n, d, r, rest)
    ensures Fetch(d.regs, ConvCode(r, o, from, to).o) == Some(Num(Convert(m.cx.ops, from, to, k)))
  {
    hide Ahead;
    if from == to {
      assert [] + rest == rest;
      n, d := 0, c;
      CameNot(m, c, r, rest);
    } else {
      n := 1;
      d := CameOne(m, c, Conv(r, from, to, o), rest, r, Num(m.cx.ops.conv(from, to, k)));
    }
  }

  lemma SimPackCode(m: Machine, r: nat, os: seq<Operand>, ks: seq<int>, rest: seq<Instr>, c: Config)
    returns (d: Config)
    requires HoldNums(os, ks, c.regs) && Ahead(m, c, [Pack(r, os)] + rest)
    ensures Came(m, c, 1, d, r, rest) && Fetch(d.regs, Reg(r)) == Some(Arr(ks))
  {
    hide Ahead;
    forall o | o in os ensures IsNum(c.regs, o) {
      var i :| 0 <= i < |os| && os[i] == o;
    }
    assert NumsOf(c.regs, os) == ks;
    d := CameOne(m, c, Pack(r, os), rest, r, Arr(ks));
  }

  /** A scalar is loaded, converted and, if need be, spread over an array. */
  lemma SimScalarCode(m: Machine, r: nat, v: Val, xv: Value, to: Ty, rest: seq<Instr>, c: Config)
    returns (n: nat, d: Config)
    requires Holds(v, xv, c.regs) && (v.ptr || v.ty != Void) && !v.ty.IsArray() && Below(v.o, r)
    requires Ahead(m, c, ScalarCode(r, v, to).code + rest)
    ensures Came(m, c, n, d, r, rest)
    ensures var k := Convert(m.cx.ops, v.ty, ElementOf(to), Read(c.st, xv));
            Fetch(d.regs, ScalarCode(r, v, to).o) == Some(if to.IsArray() then Arr(Spread(k, 0, to.size)) else Num(k))
  {
    hide Came, Ahead, LoadCode, ConvCode, Convert, Read, Holds;
    var x := LoadCode(r, v);
    var y := ConvCode(x.regs, x.o, v.ty, ElementOf(to));
    var z := if to.IsArray() then SpreadCode(y.regs, y.o, to.size) else Coercion([], y.o, y.regs);
    assert ScalarCode(r, v, to).code + rest == x.code + (y.code + (z.code + rest));
    var k := Read(c.st, xv);
    var k1 := Convert(m.cx.ops, v.ty, ElementOf(to), k);
    var n1, c1 := SimLoadCode(m, r, v, xv, y.code + (z.code + rest), c);
    CameAhead(m, c, n1, c1, r, y.code + (z.code + rest));
    var n2, c2 := SimConvCode(m, x.regs, x.o, v.ty, ElementOf(to), k, z.code + rest, c1);
    CodeRegs(r, v, ElementOf(to));
    CameOn(m, c, n1, c1, r, y.code + (z.code + rest), n2, c2, x.regs, z.code + rest);
    n, d := n1 + n2, c2;
    CameAhead(m, c, n, d, r, z.code + rest);
    if to.IsArray() {
      assert HoldNums(Spread(y.o, Const(0), to.size), Spread(k1, 0, to.size), c2.regs);
      d := SimPackCode(m, y.regs, Spread(y.o, Const(0), to.size), Spread(k1, 0, to.size), rest, c2);
      CameOn(m, c, n1 + n2, c2, r, z.code + rest, 1, d, y.regs, rest);
      n := n + 1;
    } else {
      assert z.code + rest == rest;
    }
  }

  lemma CameAhead(m: Machine, c: Config, n: nat, d: Config, r: nat, rest: seq<Instr>)
    requires Came(m, c, n, d, r, rest)
    ensures Ahead(m, d, rest) && d.st == c.st && Keep(c.regs, d.regs, r)
  {
  }

  lemma CodeRegs(r: nat, v: Val, to: Ty)
    ensures var x := LoadCode(r, v);
            r <= x.regs <= ConvCode(x.regs, x.o, v.ty, to).regs
  {
  }

  /** One element is loaded and converted. */
  lemma SimCellCode(m: Machine, r: nat, o: Operand, x: Value, from: Ty, to: Ty, i: nat, rest: seq<Instr>, c: Config)
    returns (d: Config)
    requires Fetch(c.regs, o) == Some(x) && !x.Num? && from != to
    requires Ahead(m, c, [Element(r, o, i)] + ([Conv(r + 1, from, to, Reg(r))] + rest))
    ensures Came(m, c, 2, d, r, rest)
    ensures Fetch(d.regs, Reg(r + 1)) == Some(Num(Convert(m.cx.ops, from, to, ElementAt(c.st.mem, x, i))))
  {
    hide Came, Ahead, ElementAt;
    var conv := Conv(r + 1, from, to, Reg(r));
    var k := ElementAt(c.st.mem, x, i);
    var c1 := CameOne(m, c, Element(r, o, i), [conv] + rest, r, Num(k));
    CameAhead(m, c, 1, c1, r, [conv] + rest);
    d := CameOne(m, c1, conv, rest, r + 1, Num(Convert(m.cx.ops, from, to, k)));
    CameOn(m, c, 1, c1, r, [conv] + rest, 1, d, r + 1, rest);
  }

  /** The elements of an array are loaded and converted one after the other. */
  lemma {:induction false} SimCellsCode(m: Machine, r: nat, o: Operand, x: Value, from: Ty, to: Ty, size: nat,
                                        rest: seq<Instr>, c: Config)
    returns (n: nat, d: Config)
    requires Fetch(c.regs, o) == Some(x) && !x.Num? && Below(o, r) && from != to
    requires Ahead(m, c, CellsCode(r, o, from, to, size).code + rest)
    ensures Came(m, c, n, d, r, rest)
    ensures HoldNums(CellsCode(r, o, from, to, size).os, CastCells(m.cx.ops, from, to, c.st.mem, x, size), d.regs)
    ensures AllBelow(CellsCode(r, o, from, to, size).os, CellsCode(r, o, from, to, size).regs)
    decreases size
  {
    hide Came, Ahead, HoldNums, ElementAt, Keep;
    if size == 0 {
      assert [] + rest == rest;
      n, d := 0, c;
      CameNot(m, c, r, rest);
      NoNums(c.regs);
    } else {
      var s := CellsCode(r, o, from, to, size - 1);
      var load, conv := Element(s.regs, o, size - 1), Conv(s.regs + 1, from, to, Reg(s.regs));
      var last := [load] + ([conv] + rest);
      assert CellsCode(r, o, from, to, size).code + rest == s.code + last;
      var n1, c1 := SimCellsCode(m, r, o, x, from, to, size - 1, last, c);
      CameAhead(m, c, n1, c1, r, last);
      KeepFetch(o, c.regs, c1.regs, r);
      d := SimCellCode(m, s.regs, o, x, from, to, size - 1, rest, c1);
      CellsCodeRegs(r, o, from, to, size - 1);
      CameOn(m, c, n1, c1, r, last, 2, d, s.regs, rest);
      CameAhead(m, c1, 2, d, s.regs, rest);
      var ks := CastCells(m.cx.ops, from, to, c.st.mem, x, size - 1);
      KeepNums(s.os, ks, c1.regs, d.regs, s.regs);
      OneMoreNum(s.os, ks, Reg(s.regs + 1), Convert(m.cx.ops, from, to, ElementAt(c.st.mem, x, size - 1)), d.regs);
      n := n1 + 2;
    }
  }

  /** What the type of a ternary is to the types of its two values. */
  predicate Coercible(from: Static, to: Static) {
    from == to ||
    (from.Typed? && to.Typed? && !to.ptr && (from.ptr || from.ty != Void) &&
     (from.ty.IsArray() ==> from.ty == to.ty || (to.ty.IsArray() && from.ty.elem != to.ty.elem)))
  }

  /** The inserted code brings a value to the type of the ternary. */
  lemma SimCoerce(m: Machine, r: nat, v: Val, xv: Value, to: Static, rest: seq<Instr>, c: Config)
    returns (n: nat, d: Config)
    requires Holds(v, xv, c.regs) && Coercible(StaticOf(v), to)
    requires Below(v.o, r) && Ahead(m, c, CoerceCode(r, v, to).code + rest)
    ensures Came(m, c, n, d, r, rest)
    ensures to == Typed(Void, false) ||
            Fetch(d.regs, CoerceCode(r, v, to).o) == Some(Coerce(m.cx.ops, Result(c.st, xv), StaticOf(v), to))
  {
    hide Ahead, Came, ScalarCode, CellsCode, CastCells;
    if StaticOf(v) == to || (v.ty == to.ty && v.ty.IsArray()) {
      assert [] + rest == rest;
      n, d := 0, c;
      CameNot(m, c, r, rest);
    } else if v.ty.IsArray() {
      var elem := ElementOf(to.ty);
      var s := CellsCode(r, v.o, v.ty.elem, elem, v.ty.size);
      assert CoerceCode(r, v, to).code + rest == s.code + ([Pack(s.regs, s.os)] + rest);
      var n1, c1 := SimCellsCode(m, r, v.o, xv, v.ty.elem, elem, v.ty.size, [Pack(s.regs, s.os)] + rest, c);
      CameAhead(m, c, n1, c1, r, [Pack(s.regs, s.os)] + rest);
      d := SimPackCode(m, s.regs, s.os, CastCells(m.cx.ops, v.ty.elem, elem, c.st.mem, xv, v.ty.size), rest, c1);
      CellsCodeRegs(r, v.o, v.ty.elem, elem, v.ty.size);
      CameOn(m, c, n1, c1, r, [Pack(s.regs, s.os)] + rest, 1, d, s.regs, rest);
      n := n1 + 1;
    } else {
      n, d := SimScalarCode(m, r, v, xv, to.ty, rest, c);
    }
  }

  /** The end of one branch: the inserted code, then the branch to the block that joins both. */
  lemma SimSide(m: Machine, r: nat, v: Val, xv: Value, to: Static, ret: nat, c: Config, h: Gen)
    returns (n: nat, d: Config)
    requires Holds(v, xv, c.regs) && Coercible(StaticOf(v), to)
    requires Below(v.o, r) && Ahead(m, c, CoerceCode(r, v, to).code + [Br(ret)])
    requires h.ip == ret && Code(h, ret) == []
    ensures Moves(m, c, n, d, h, r) && d.st == c.st && d.prev == c.block
    ensures to == Typed(Void, false) ||
            Fetch(d.regs, CoerceCode(r, v, to).o) == Some(Coerce(m.cx.ops, Result(c.st, xv), StaticOf(v), to))
  {
    hide Ahead, Keep, CoerceCode, Coerce, Coercible;
    var n1, c1 := SimCoerce(m, r, v, xv, to, [Br(ret)], c);
    StepAhead(m, c1, [Br(ret)]);
    d := Goto(c1, ret).c;
    RunOne(m, c1, d);
    RunThen(m, c, n1, c1, 1);
    n := n1 + 1;
  }

  lemma InsertedCode(g: Gen, b: nat, code: seq<Instr>, base: seq<Instr>, last: Instr)
    requires b < |g.blocks| && Code(g, b) == base + [last]
    ensures var h := InsertBefore(g, b, code);
            Code(h, b) == base + code + [last] && forall i | 0 <= i < |g.blocks| && i != b :: h.blocks[i] == g.blocks[i]
  {
  }

  /** The finished blocks at the ends of the two branches, and the block that joins them. */
  lemma JoinedCode(g: Gen, ret: nat, tEnd: nat, x: seq<Instr>, tBase: seq<Instr>, fEnd: nat, y: seq<Instr>,
      fBase: seq<Instr>, regs: nat)
    requires ret < |g.blocks| && tEnd < |g.blocks| && fEnd < |g.blocks| && tEnd != fEnd
    requires Code(g, tEnd) == tBase + [Br(ret)] && Code(g, fEnd) == fBase + [Br(ret)]
    ensures var h := Joined(g, ret, tEnd, x, fEnd, y, regs);
            && Code(h, tEnd) == tBase + x + [Br(ret)] && Code(h, fEnd) == fBase + y + [Br(ret)]
            && forall b | 0 <= b < |g.blocks| && b != tEnd && b != fEnd :: h.blocks[b] == g.blocks[b]
  {
    InsertedCode(g, tEnd, x, tBase, Br(ret));
    InsertedCode(InsertBefore(g, tEnd, x), fEnd, y, fBase, Br(ret));
  }

  lemma AheadOf(m: Machine, b: nat, base: seq<Instr>, rest: seq<Instr>, c: Config)
    requires b < |m.code| && base + rest <= m.code[b].code && c.block == b && c.pc == |base|
    ensures Ahead(m, c, rest)
  {
    var code := m.code[b].code;
    assert code[..|base + rest|] == base + rest;
    forall i | 0 <= i < |rest| ensures code[c.pc + i] == rest[i] {
      assert code[|base| + i] == code[..|base + rest|][|base| + i] == (base + rest)[|base| + i];
    }
  }

  /** The finished function contains all blocks of h from number k on. */
  ghost predicate Beyond(k: nat, h: Gen, code: seq<BasicBlock>) {
    |h.blocks| <= |code| && forall b | k <= b < |h.blocks| :: Code(h, b) <= code[b].code
  }

  /** The builders around the two branches of a ternary. */
  datatype Branches = Branches(t: Made, g2: Gen, f: Made, g3: Gen)

  ghost predicate AreBranches(fs: Functions, e: Expr, env: Env, onTrue: nat, cond: Val, h: Gen, p: Branches) {
    && e.Ternary? && onTrue + 2 < |h.blocks|
    && p.t == (if e.onTrue.Some? then Lower(fs, e.onTrue.value, env, At(h, onTrue)) else Made(At(h, onTrue), cond))
    && p.t.Made? && p.g2 == Emit(p.t.g, Br(onTrue + 2))
    && p.f == Lower(fs, e.onFalse, env, At(p.g2, onTrue + 1))
    && p.f.Made? && p.g3 == Emit(p.f.g, Br(onTrue + 2))
  }

  ghost predicate EmptyAhead(onTrue: nat, h: Gen) {
    && onTrue + 2 < |h.blocks|
    && Code(h, onTrue) == [] && Code(h, onTrue + 1) == [] && Code(h, onTrue + 2) == []
  }

  /** Where the branches of a ternary end, and what these blocks hold. */
  lemma {:induction false} BranchEnds(fs: Functions, e: Expr, env: Env, onTrue: nat, cond: Val, h: Gen, p: Branches)
    requires AreBranches(fs, e, env, onTrue, cond, h, p) && EmptyAhead(onTrue, h) && Below(cond.o, h.regs)
    ensures Frame(At(h, onTrue), p.t.g) && Frame(At(p.g2, onTrue + 1), p.f.g)
    ensures var tEnd, fEnd := p.t.g.ip, p.f.g.ip;
            && (tEnd == onTrue || |h.blocks| <= tEnd) && (fEnd == onTrue + 1 || |p.g2.blocks| <= fEnd)
            && Code(p.g3, tEnd) == Code(p.t.g, tEnd) + [Br(onTrue + 2)]
            && Code(p.g3, fEnd) == Code(p.f.g, fEnd) + [Br(onTrue + 2)]
            && Code(p.g3, onTrue + 2) == [] && Code(p.g2, onTrue + 1) == []
    ensures h.regs <= p.t.g.regs <= p.f.g.regs && p.g3.regs == p.f.g.regs && p.g2.regs == p.t.g.regs
    ensures Below(p.t.v.o, p.t.g.regs) && Below(p.f.v.o, p.f.g.regs)
    ensures e.onTrue.Some? ==> Check(fs, e.onTrue.value, env) == StaticOf(p.t.v)
    ensures Check(fs, e.onFalse, env) == StaticOf(p.f.v)
  {
    hide Frame, Lower, Check, Emit;
    var t, f, ret := onTrue, onTrue + 1, onTrue + 2;
    FrameSelf(At(h, t));
    if e.onTrue.Some? { LowerFrame(fs, e.onTrue.value, env, At(h, t)); }
    ThenEmit(At(h, t), p.t.g, Br(ret));
    EndBlock(h, t, p.t.g);
    Untouched(At(h, t), p.g2, f);
    Untouched(At(h, t), p.g2, ret);
    LowerFrame(fs, e.onFalse, env, At(p.g2, f));
    EndBlock(p.g2, f, p.f.g);
    Untouched(At(p.g2, f), p.f.g, p.t.g.ip);
    Untouched(At(p.g2, f), p.f.g, ret);
    EmitCode(p.t.g, Br(ret));
    EmitCode(p.f.g, Br(ret));
  }

  lemma EmitCode(g: Gen, i: Instr)
    ensures Code(Emit(g, i), g.ip) == Code(g, g.ip) + [i]
    ensures forall b | 0 <= b < |g.blocks| && b != g.ip :: Emit(g, i).blocks[b] == g.blocks[b]
  {
  }

  /** Both branches, and the code inserted at their ends, are in the finished function. */
  lemma {:induction false} BranchesWithin(fs: Functions, e: Expr, env: Env, onTrue: nat, cond: Val, h: Gen, p: Branches,
                                          x: Coercion, y: Coercion, code: seq<BasicBlock>)
    requires AreBranches(fs, e, env, onTrue, cond, h, p) && EmptyAhead(onTrue, h) && Below(cond.o, h.regs)
    requires p.t.g.ip < |p.g3.blocks|
    requires Beyond(onTrue, Joined(p.g3, onTrue + 2, p.t.g.ip, x.code, p.f.g.ip, y.code, y.regs), code)
    ensures Within(At(h, onTrue), p.t.g, code) && Within(At(p.g2, onTrue + 1), p.f.g, code)
    ensures var tEnd, fEnd := p.t.g.ip, p.f.g.ip;
            && tEnd < |code| && (Code(p.t.g, tEnd) + x.code) + [Br(onTrue + 2)] <= code[tEnd].code
            && fEnd < |code| && (Code(p.f.g, fEnd) + y.code) + [Br(onTrue + 2)] <= code[fEnd].code
            && Code(Joined(p.g3, onTrue + 2, tEnd, x.code, fEnd, y.code, y.regs), onTrue + 2) == []
  {
    hide Lower, Emit, Joined, Frame;
    var t, f, ret := onTrue, onTrue + 1, onTrue + 2;
    var tEnd, fEnd := p.t.g.ip, p.f.g.ip;
    BranchEnds(fs, e, env, onTrue, cond, h, p);
    JoinedCode(p.g3, ret, tEnd, x.code, Code(p.t.g, tEnd), fEnd, y.code, Code(p.f.g, fEnd), y.regs);
    var j := Joined(p.g3, ret, tEnd, x.code, fEnd, y.code, y.regs);
    EmitCode(p.t.g, Br(ret));
    EmitCode(p.f.g, Br(ret));
    forall b | 0 <= b < |p.t.g.blocks| && (b == t || |h.blocks| <= b) ensures Code(p.t.g, b) <= code[b].code {
      if b != tEnd {
        Untouched(At(p.g2, f), p.f.g, b);
        assert j.blocks[b] == p.t.g.blocks[b];
      }
      assert Code(j, b) <= code[b].code;
    }
    forall b | 0 <= b < |p.f.g.blocks| && (b == f || |p.g2.blocks| <= b) ensures Code(p.f.g, b) <= code[b].code {
      assert Code(j, b) <= code[b].code;
    }
    assert Code(j, tEnd) <= code[tEnd].code;
    assert Code(j, fEnd) <= code[fEnd].code;
  }

  /** The value of a ternary once its condition is known. */
  function BranchValue(cx: Context, e: Expr, env: Env, isTrue: bool, a: Result, x: Static, y: Static): Result
    requires e.Ternary? && x.Typed? && y.Typed?
  {
    var r := if !isTrue then Eval(cx, e.onFalse, env, a.st)
             else if e.onTrue.Some? then Eval(cx, e.onTrue.value, env, a.st)
             else a;
    Result(r.st, Coerce(cx.ops, r, if isTrue then x else y, TypeOfTernary(x, y)))
  }

  /** From the branch that was selected to the join. */
  lemma {:induction false} SimBranch(m: Machine, e: Expr, env: Env, onTrue: nat, cond: Val, xc: Value, h: Gen,
      p: Branches, x: Coercion, y: Coercion, isTrue: bool, c: Config)
    returns (n: nat, d: Config)
    requires AreBranches(m.cx.functions, e, env, onTrue, cond, h, p) && EmptyAhead(onTrue, h) && Below(cond.o, h.regs)
    requires p.t.g.ip < |p.g3.blocks| && p.t.g.ip != p.f.g.ip
    requires var ty := TypeOfTernary(StaticOf(p.t.v), StaticOf(p.f.v));
             ty.Typed? && x == CoerceCode(p.g3.regs, p.t.v, ty) && y == CoerceCode(x.regs, p.f.v, ty)
    requires Beyond(onTrue, Joined(p.g3, onTrue + 2, p.t.g.ip, x.code, p.f.g.ip, y.code, y.regs), m.code)
    requires Stands(At(h, if isTrue then onTrue else onTrue + 1), c) && Holds(cond, xc, c.regs)
    ensures var j := Joined(p.g3, onTrue + 2, p.t.g.ip, x.code, p.f.g.ip, y.code, y.regs);
            var ty := TypeOfTernary(StaticOf(p.t.v), StaticOf(p.f.v));
            var r := BranchValue(m.cx, e, env, isTrue, Result(c.st, xc), StaticOf(p.t.v), StaticOf(p.f.v));
            && Moves(m, c, n, d, j, h.regs) && d.st == r.st && Code(j, onTrue + 2) == [] && h.regs <= j.regs
            && d.prev == (if isTrue then p.t.g.ip else p.f.g.ip)
            && (ty == Typed(Void, false) ||
                (Fetch(d.regs, (if isTrue then x else y).o) == Some(r.v) && Fits(r.v, ty.ty, ty.ptr)))
    decreases e, 0, 0
  {
    hide Frame, Within, Embeds, Moves, Stands, Keep, Lower, Emit, Check, Eval, Joined, CoerceCode, Coerce, Ahead,
      Beyond;
    var fs := m.cx.functions;
    var ret, tEnd, fEnd := onTrue + 2, p.t.g.ip, p.f.g.ip;
    var ty := TypeOfTernary(StaticOf(p.t.v), StaticOf(p.f.v));
    var j := Joined(p.g3, ret, tEnd, x.code, fEnd, y.code, y.regs);
    BranchEnds(fs, e, env, onTrue, cond, h, p);
    BranchesWithin(fs, e, env, onTrue, cond, h, p, x, y, m.code);
    JoinedRegs(p.g3, ret, tEnd, x.code, fEnd, y.code, y.regs);
    CoerceRegs(p.g3.regs, p.t.v, ty);
    CoerceRegs(x.regs, p.f.v, ty);
    TernaryTypes(StaticOf(p.t.v), StaticOf(p.f.v));
    if isTrue {
      var n1, c1 := 0, c;
      var r := Result(c.st, xc);
      if e.onTrue.Some? {
        n1, c1 := SimExpr(m, e.onTrue.value, env, At(h, onTrue), c);
        r := Eval(m.cx, e.onTrue.value, env, c.st);
      } else {
        MovesNot(m, c, At(h, onTrue), h.regs);
      }
      n, d := SimEnd(m, c, n1, c1, p.t.g, h.regs, p.g3.regs, p.t.v, r, ty, ret, j);
    } else {
      StandsSame(h, p.g2, onTrue + 1, c);
      var n1, c1 := SimExpr(m, e.onFalse, env, At(p.g2, onTrue + 1), c);
      var r := Eval(m.cx, e.onFalse, env, c.st);
      MovesLess(m, c, n1, c1, p.f.g, p.g2.regs, h.regs);
      n, d := SimEnd(m, c, n1, c1, p.f.g, h.regs, x.regs, p.f.v, r, ty, ret, j);
    }
  }

  lemma JoinedRegs(g: Gen, ret: nat, tEnd: nat, x: seq<Instr>, fEnd: nat, y: seq<Instr>, regs: nat)
    requires ret < |g.blocks| && tEnd < |g.blocks| && fEnd < |g.blocks|
    ensures var h := Joined(g, ret, tEnd, x, fEnd, y, regs); h.regs == regs && h.ip == ret
  {
  }

  lemma StandsSame(h: Gen, g: Gen, b: nat, c: Config)
    requires b < |h.blocks| && b < |g.blocks| && Code(h, b) == Code(g, b) && Stands(At(h, b), c)
    ensures Stands(At(g, b), c)
  {
  }

  lemma MovesLess(m: Machine, c: Config, n: nat, d: Config, h: Gen, k: nat, l: nat)
    requires Moves(m, c, n, d, h, k) && l <= k
    ensures Moves(m, c, n, d, h, l)
  {
  }

  /** Having reached the end of a branch, run the inserted code and go to the join. */
  lemma SimEnd(m: Machine, c: Config, n1: nat, c1: Config, g: Gen, k: nat, r: nat, v: Val, x: Result, to: Static,
               ret: nat, j: Gen)
    returns (n: nat, d: Config)
    requires Moves(m, c, n1, c1, g, k) && c1.st == x.st && Holds(v, x.v, c1.regs)
    requires k <= g.regs <= r && Below(v.o, g.regs)
    requires Coercible(StaticOf(v), to)
    requires g.ip < |m.code| && (Code(g, g.ip) + CoerceCode(r, v, to).code) + [Br(ret)] <= m.code[g.ip].code
    requires j.ip == ret && Code(j, ret) == []
    ensures Moves(m, c, n, d, j, k) && d.st == x.st && d.prev == g.ip
    ensures var y := Coerce(m.cx.ops, x, StaticOf(v), to);
            to == Typed(Void, false) || (Fetch(d.regs, CoerceCode(r, v, to).o) == Some(y) && Fits(y, to.ty, to.ptr))
  {
    hide Moves, Keep, Ahead, CoerceCode;
    MovesStands(m, c, n1, c1, g, k);
    var code := CoerceCode(r, v, to).code;
    assert (Code(g, g.ip) + code) + [Br(ret)] == Code(g, g.ip) + (code + [Br(ret)]);
    AheadOf(m, g.ip, Code(g, g.ip), code + [Br(ret)], c1);
    var n2;
    n2, d := SimSide(m, r, v, x.v, to, ret, c1, j);
    MovesOn(m, c, n1, c1, g, k, n2, d, j, r);
    n := n1 + n2;
  }

  lemma {:induction false} SimBranches(m: Machine, e: Expr, env: Env, onTrue: nat, cond: Val, xc: Value, h: Gen,
                                       isTrue: bool, c: Config)
    returns (n: nat, d: Config)
    requires e.Ternary? && EmptyAhead(onTrue, h) && Below(cond.o, h.regs)
    requires var r := LowerBranches(m.cx.functions, e, env, onTrue, cond, h); r.Made? && Beyond(onTrue, r.g, m.code)
    requires Stands(At(h, if isTrue then onTrue else onTrue + 1), c) && Holds(cond, xc, c.regs)
    ensures var r := LowerBranches(m.cx.functions, e, env, onTrue, cond, h);
            var x := if e.onTrue.Some? then Check(m.cx.functions, e.onTrue.value, env) else StaticOf(cond);
            var y := Check(m.cx.functions, e.onFalse, env);
            && x.Typed? && y.Typed?
            && var v := BranchValue(m.cx, e, env, isTrue, Result(c.st, xc), x, y);
               && Moves(m, c, n, d, r.g, h.regs) && d.st == v.st && Holds(r.v, v.v, d.regs)
    decreases e, 0, 1
  {
    hide Frame, Within, Embeds, Moves, Stands, Keep, Lower, Emit, Check, Eval, Joined, CoerceCode, Ahead, Beyond,
      EmitDef, Execute, TypeOfTernary, InsertBefore;
    var fs := m.cx.functions;
    var t := if e.onTrue.Some? then Lower(fs, e.onTrue.value, env, At(h, onTrue)) else Made(At(h, onTrue), cond);
    var g2 := Emit(t.g, Br(onTrue + 2));
    var f := Lower(fs, e.onFalse, env, At(g2, onTrue + 1));
    var p := Branches(t, g2, f, Emit(f.g, Br(onTrue + 2)));
    BranchEnds(fs, e, env, onTrue, cond, h, p);
    var ty := TypeOfTernary(StaticOf(t.v), StaticOf(f.v));
    var x := CoerceCode(p.g3.regs, t.v, ty);
    var y := CoerceCode(x.regs, f.v, ty);
    var j := Joined(p.g3, onTrue + 2, t.g.ip, x.code, f.g.ip, y.code, y.regs);
    var phi := Phi(j.regs, [Arm(t.g.ip, x.o), Arm(f.g.ip, y.o)]);
    JoinedRegs(p.g3, onTrue + 2, t.g.ip, x.code, f.g.ip, y.code, y.regs);
    BeyondDef(onTrue, j, phi, m.code);
    TernaryTypes(StaticOf(t.v), StaticOf(f.v));
    n, d := SimBranch(m, e, env, onTrue, cond, xc, h, p, x, y, isTrue, c);
    if ty != Typed(Void, false) {
      MovesStands(m, c, n, d, j, h.regs);
      var v := BranchValue(m.cx, e, env, isTrue, Result(c.st, xc), StaticOf(t.v), StaticOf(f.v));
      var d1 := StepPhi(m, j, Arm(t.g.ip, x.o), Arm(f.g.ip, y.o), d, v.v);
      MovesOn(m, c, n, d, j, h.regs, 1, d1, EmitDef(j, phi).g, j.regs);
      n, d := n + 1, d1;
    }
  }

  lemma TernaryTypes(x: Static, y: Static)
    requires x.Typed? && y.Typed?
    ensures var ty := TypeOfTernary(x, y);
            && (ty == Typed(Void, false) ==> x == y == ty)
            && (ty.Typed? ==> Coercible(x, ty) && Coercible(y, ty)) && (ty.Typed? && ty.ptr ==> x == y == ty)
  {
  }

  lemma BeyondDef(k: nat, g: Gen, i: Instr, code: seq<BasicBlock>)
    ensures Beyond(k, EmitDef(g, i).g, code) ==> Beyond(k, g, code)
    ensures Beyond(k, EmitDef(g, i).g, code) && k <= g.ip ==> Embeds(EmitDef(g, i).g, code)
  {
  }

  lemma TernaryValue(m: Machine, e: Expr, env: Env, st: State)
    requires e.Ternary?
    requires var x := Check(m.cx.functions, if e.onTrue.Some? then e.onTrue.value else e.cond, env);
             x.Typed? && Check(m.cx.functions, e.onFalse, env).Typed?
    ensures var a := Eval(m.cx, e.cond, env, st);
            var x := Check(m.cx.functions, if e.onTrue.Some? then e.onTrue.value else e.cond, env);
            var y := Check(m.cx.functions, e.onFalse, env);
            Eval(m.cx, e, env, st) == BranchValue(m.cx, e, env, IsTrue(m.cx, e.cond, env, a), a, x, y)
  {
  }

  lemma LowersTernary(fs: Functions, e: Expr, env: Env, g: Gen)
    requires e.Ternary?
    ensures Lower(fs, e, env, g) == LowerTernary(fs, e, env, g)
  {
  }

  lemma {:induction false} SimTernary(m: Machine, e: Expr, env: Env, g: Gen, c: Config) returns (n: nat, d: Config)
    requires e.Ternary? && Stands(g, c)
    requires var r := Lower(m.cx.functions, e, env, g); !r.Fail? && Within(g, r.g, m.code)
    ensures Simulates(m, c, g, Lower(m.cx.functions, e, env, g), Eval(m.cx, e, env, c.st), n, d)
    decreases e, 0, 2
  {
    hide Frame, Within, Embeds, Moves, Stands, Keep, Loaded, Tested, Emit, EmitDef, Check, Eval, LowerBranches,
      BranchValue, Beyond, Execute, Below;
    LowersTernary(m.cx.functions, e, env, g);
    hide Lower;
    var fs := m.cx.functions;
    var onTrue := |g.blocks|;
    var g0 := NewBlock(NewBlock(NewBlock(g, TernaryTrue), TernaryFalse), TernaryReturn);
    var a := Lower(fs, e.cond, env, g0);
    var la := Loaded(a.g, a.v);
    var ta := Tested(la.g, la.o, a.v.ty);
    var h := Emit(ta.g, CondBr(ta.o, onTrue, onTrue + 1));
    TernaryShape(fs, e, env, g, a, ta, h, m.code);

    NewStands(g, c, g0);
    var n1, c1 := SimExpr(m, e.cond, env, g0, c);
    MovesStands(m, c, n1, c1, a.g, g.regs);
    var xa := Eval(m.cx, e.cond, env, c.st);
    var n2, c2 := SimLoadTest(m, a.g, a.v, xa.v, c1);
    MovesStands(m, c1, n2, c2, ta.g, a.g.regs);
    MovesOn(m, c, n1, c1, a.g, g.regs, n2, c2, ta.g, a.g.regs);
    var isTrue := m.cx.ops.truth(a.v.ty, Read(xa.st, xa.v));
    var to := At(h, if isTrue then onTrue else onTrue + 1);
    var c3 := StepCond(m, ta.g, ta.o, onTrue, onTrue + 1, c2, if isTrue then 1 else 0, to);
    KeepHolds(a.v, xa.v, c1.regs, c2.regs, a.g.regs);
    MovesOn(m, c, n1 + n2, c2, ta.g, g.regs, 1, c3, to, ta.g.regs);
    MovesStands(m, c2, 1, c3, to, ta.g.regs);
    var n4;
    n4, d := SimBranches(m, e, env, onTrue, a.v, xa.v, h, isTrue, c3);
    var r := LowerBranches(fs, e, env, onTrue, a.v, h);
    MovesOn(m, c, n1 + n2 + 1, c3, to, g.regs, n4, d, r.g, h.regs);
    n := n1 + n2 + 1 + n4;
    TernaryValue(m, e, env, c.st);
  }

  lemma {:induction false} TernaryShape(fs: Functions, e: Expr, env: Env, g: Gen, a: Made, ta: Emitted, h: Gen,
                                        code: seq<BasicBlock>)
    requires e.Ternary?
    requires a == Lower(fs, e.cond, env, NewBlock(NewBlock(NewBlock(g, TernaryTrue), TernaryFalse), TernaryReturn))
    requires a.Made? && a.v.ty.IsScalar()
    requires var la := Loaded(a.g, a.v); ta == Tested(la.g, la.o, a.v.ty)
    requires h == Emit(ta.g, CondBr(ta.o, |g.blocks|, |g.blocks| + 1))
    requires var r := LowerBranches(fs, e, env, |g.blocks|, a.v, h); r.Made? && Within(g, r.g, code)
    ensures var r := LowerBranches(fs, e, env, |g.blocks|, a.v, h);
            && Within(NewBlock(NewBlock(NewBlock(g, TernaryTrue), TernaryFalse), TernaryReturn), a.g, code)
            && Embeds(ta.g, code) && Embeds(h, code) && Beyond(|g.blocks|, r.g, code)
            && EmptyAhead(|g.blocks|, h)
            && g.regs <= a.g.regs <= ta.g.regs == h.regs
            && Below(a.v.o, a.g.regs) && Below(a.v.o, h.regs) && Check(fs, e.cond, env) == StaticOf(a.v)
  {
    hide Frame, Within, Embeds, Loaded, Tested, Emit, Lower, Check, LowerBranches;
    var onTrue := |g.blocks|;
    var g0 := NewBlock(NewBlock(NewBlock(g, TernaryTrue), TernaryFalse), TernaryReturn);
    var la := Loaded(a.g, a.v);
    var br := CondBr(ta.o, onTrue, onTrue + 1);
    var r := LowerBranches(fs, e, env, onTrue, a.v, h);
    LowerFrame(fs, e.cond, env, g0);
    ThenLoad(g0, a.g, a.v);
    ThenTest(g0, la.g, la.o, a.v.ty);
    ThenEmit(g0, ta.g, br);
    Untouched(g0, h, onTrue);
    Untouched(g0, h, onTrue + 1);
    Untouched(g0, h, onTrue + 2);
    FrameSelf(a.g);
    ThenLoad(a.g, a.g, a.v);
    ThenTest(a.g, la.g, la.o, a.v.ty);
    ThenEmit(a.g, ta.g, br);
    BranchesGrow(fs, e, env, onTrue, a.v, h);
    WithinGrows(g, h, r.g, code);
    WithinDetour(g, a.g, a.g.ip, h, code);
    WithinLater(g, g0, a.g, code);
    RegionHere(g, h, code);
    EmitEmbeds(ta.g, br, code);
    WithinBeyond(g, r.g, code);
  }

  lemma WithinBeyond(g: Gen, h: Gen, code: seq<BasicBlock>)
    requires Within(g, h, code)
    ensures Beyond(|g.blocks|, h, code)
  {
  }

  /** The branches only add code to blocks that were empty. */
  ghost predicate Grows(g: Gen, h: Gen) {
    |g.blocks| <= |h.blocks| && forall b | 0 <= b < |g.blocks| :: Code(g, b) <= Code(h, b)
  }

  lemma WithinGrows(g: Gen, a: Gen, h: Gen, code: seq<BasicBlock>)
    requires Grows(a, h) && Within(g, h, code)
    ensures Within(g, a, code)
  {
  }

  /** Blocks outside the ternary are left alone. */
  lemma {:induction false} BranchesKeep(fs: Functions, e: Expr, env: Env, onTrue: nat, cond: Val, h: Gen, b: nat)
    requires e.Ternary? && EmptyAhead(onTrue, h) && Below(cond.o, h.regs) &&
      LowerBranches(fs, e, env, onTrue, cond, h).Made?
    requires b < |h.blocks| && (b < onTrue || onTrue + 2 < b)
    ensures var r := LowerBranches(fs, e, env, onTrue, cond, h); b < |r.g.blocks| && r.g.blocks[b] == h.blocks[b]
  {
    hide Frame, Lower, LowerTernary, LowerLogical, LowerComma, LowerArgs, Emit, InsertBefore, CoerceCode;
    var t := if e.onTrue.Some? then Lower(fs, e.onTrue.value, env, At(h, onTrue)) else Made(At(h, onTrue), cond);
    var g2 := Emit(t.g, Br(onTrue + 2));
    var f := Lower(fs, e.onFalse, env, At(g2, onTrue + 1));
    var g3 := Emit(f.g, Br(onTrue + 2));
    if e.onTrue.Some? {
      LowerFrame(fs, e.onTrue.value, env, At(h, onTrue));
      Untouched(At(h, onTrue), t.g, b);
      EndBlock(h, onTrue, t.g);
    }
    LowerFrame(fs, e.onFalse, env, At(g2, onTrue + 1));
    EmitElsewhere(t.g, Br(onTrue + 2), b);
    Untouched(At(g2, onTrue + 1), f.g, b);
    EndBlock(g2, onTrue + 1, f.g);
    EmitElsewhere(f.g, Br(onTrue + 2), b);
    JoinElsewhere(onTrue + 2, t.g.ip, t.v, f.g.ip, f.v, g3, b);
  }

  lemma EmitElsewhere(g: Gen, i: Instr, b: nat)
    requires b < |g.blocks| && b != g.ip
    ensures Emit(g, i).blocks[b] == g.blocks[b]
  {
  }

  lemma JoinElsewhere(ret: nat, tEnd: nat, t: Val, fEnd: nat, f: Val, g: Gen, b: nat)
    requires ret < |g.blocks| && tEnd < |g.blocks| && fEnd < |g.blocks| && b < |g.blocks|
    requires b != ret && b != tEnd && b != fEnd
    ensures var m := JoinTernary(ret, tEnd, t, fEnd, f, g); m.Made? ==> m.g.blocks[b] == g.blocks[b]
  {
  }

  lemma {:induction false} BranchesGrow(fs: Functions, e: Expr, env: Env, onTrue: nat, cond: Val, h: Gen)
    requires e.Ternary? && EmptyAhead(onTrue, h) && Below(cond.o, h.regs) &&
      LowerBranches(fs, e, env, onTrue, cond, h).Made?
    ensures Grows(h, LowerBranches(fs, e, env, onTrue, cond, h).g)
  {
    hide LowerBranches;
    var r := LowerBranches(fs, e, env, onTrue, cond, h);
    forall b | 0 <= b < |h.blocks| ensures Code(h, b) <= Code(r.g, b) {
      if b < onTrue || onTrue + 2 < b {
        BranchesKeep(fs, e, env, onTrue, cond, h, b);
      }
    }
  }
}
