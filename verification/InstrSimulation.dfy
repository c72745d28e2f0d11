/**
How pieces of straight-line code run inside any finished function that contains them: loads,
conversions, binary operators, assignments and calls.
*/
module InstrSimulation {
  import opened Types
  import opened Ast
  import opened Overloads
  import opened Semantics
  import opened Cfg
  import opened Lowering
  import opened Frames

  /** The finished function contains the code of the current block. */
  ghost predicate Embeds(g: Gen, code: seq<BasicBlock>) {
    g.ip < |code| && Code(g, g.ip) <= code[g.ip].code
  }

  /** Execution stands where generation stands. */
  ghost predicate Stands(g: Gen, c: Config) {
    c.block == g.ip && c.pc == |Code(g, g.ip)|
  }

  /** Registers below `k` keep their values. */
  ghost predicate Keep(before: Registers, after: Registers, k: nat) {
    forall r: nat | r < k && r in before :: r in after && after[r] == before[r]
  }

  /** An operand holds a value. Void values are never read, so nothing is said of them. */
  ghost predicate Holds(v: Val, x: Value, regs: Registers) {
    (v.ty == Void && !v.ptr) || (Fetch(regs, v.o) == Some(x) && Fits(x, v.ty, v.ptr))
  }

  /** Scalars are numbers or addresses of variables; arrays that are not variables may be either new arrays or
      addresses. */
  predicate Fits(x: Value, ty: Ty, ptr: bool) {
    if ty.IsArray() then !x.Num? && (ptr ==> x.Ptr?) else !x.Arr? && (x.Ptr? <==> ptr)
  }

  /** Running n steps from c leads to d, where generation stands at h. */
  ghost predicate Moves(m: Machine, c: Config, n: nat, d: Config, h: Gen, k: nat) {
    Run(m, c, n) == Running(d) && Stands(h, d) && d.io == c.io && Keep(c.regs, d.regs, k)
  }

  lemma MovesNot(m: Machine, c: Config, g: Gen, k: nat)
    requires Stands(g, c)
    ensures Moves(m, c, 0, c, g, k)
  {
  }

  lemma MovesOn(m: Machine, c: Config, n1: nat, c1: Config, g1: Gen, k1: nat, n2: nat, c2: Config, g2: Gen, k2: nat)
    requires Moves(m, c, n1, c1, g1, k1) && Moves(m, c1, n2, c2, g2, k2) && k1 <= k2
    ensures Moves(m, c, n1 + n2, c2, g2, k1)
  {
    RunThen(m, c, n1, c1, n2);
  }

  lemma KeepHolds(v: Val, x: Value, before: Registers, after: Registers, k: nat)
    requires Holds(v, x, before) && Keep(before, after, k) && Below(v.o, k)
    ensures Holds(v, x, after)
  {
  }

  lemma KeepFetch(o: Operand, before: Registers, after: Registers, k: nat)
    requires Fetch(before, o).Some? && Keep(before, after, k) && Below(o, k)
    ensures Fetch(after, o) == Fetch(before, o)
  {
  }

  // ---------------------------------------------------------------------------------------
  // Single instructions

  /** The instruction emitted where execution stands is the one executed next. */
  lemma StepEmitted(m: Machine, g: Gen, i: Instr, c: Config)
    requires Embeds(Emit(g, i), m.code) && Stands(g, c)
    ensures Step(m, c) == Execute(m, c, i)
  {
    assert Code(Emit(g, i), g.ip)[|Code(g, g.ip)|] == i;
  }

  lemma RunOne(m: Machine, c: Config, d: Config)
    requires Step(m, c) == Running(d)
    ensures Run(m, c, 1) == Running(d)
  {
    assert Run(m, d, 0) == Running(d);
  }

  /** An instruction that defines the next register. */
  lemma StepDefine(m: Machine, g: Gen, i: Instr, c: Config, x: Value) returns (d: Config)
    requires Embeds(EmitDef(g, i).g, m.code) && Stands(g, c)
    requires Execute(m, c, i) == Define(c, g.regs, x)
    ensures Moves(m, c, 1, d, EmitDef(g, i).g, g.regs)
    ensures d.st == c.st && Fetch(d.regs, EmitDef(g, i).o) == Some(x)
  {
    hide Execute;
    d := Define(c, g.regs, x).c;
    EmbedsSame(Emit(g, i), EmitDef(g, i).g, m.code);
    StepEmitted(m, g, i, c);
    RunOne(m, c, d);
  }

  lemma EmbedsSame(g: Gen, h: Gen, code: seq<BasicBlock>)
    requires g.blocks == h.blocks && g.ip == h.ip && Embeds(h, code)
    ensures Embeds(g, code)
  {
  }

  /** An instruction that only changes the state. */
  lemma StepNext(m: Machine, g: Gen, i: Instr, c: Config, st: State) returns (d: Config)
    requires Embeds(Emit(g, i), m.code) && Stands(g, c)
    requires Execute(m, c, i) == Next(c.(st := st))
    ensures Moves(m, c, 1, d, Emit(g, i), g.regs) && d.st == st
  {
    hide Execute;
    d := Next(c.(st := st)).c;
    StepEmitted(m, g, i, c);
    RunOne(m, c, d);
  }

  /** A branch to a block that is still empty. */
  lemma StepJump(m: Machine, g: Gen, i: Instr, c: Config, b: nat, h: Gen) returns (d: Config)
    requires Embeds(Emit(g, i), m.code) && Stands(g, c)
    requires Execute(m, c, i) == Goto(c, b)
    requires h.ip == b && Code(h, b) == []
    ensures Moves(m, c, 1, d, h, g.regs) && d.st == c.st && d.prev == g.ip && d.regs == c.regs
  {
    hide Execute;
    d := Goto(c, b).c;
    StepEmitted(m, g, i, c);
    RunOne(m, c, d);
  }

  /** A conditional branch on a tested operand. */
  lemma StepCond(m: Machine, g: Gen, o: Operand, t: nat, f: nat, c: Config, k: int, h: Gen) returns (d: Config)
    requires Embeds(Emit(g, CondBr(o, t, f)), m.code) && Stands(g, c)
    requires Fetch(c.regs, o) == Some(Num(k))
    requires h.ip == (if k != 0 then t else f) && Code(h, h.ip) == []
    ensures Moves(m, c, 1, d, h, g.regs) && d.st == c.st && d.prev == g.ip && d.regs == c.regs
  {
    hide Embeds, Moves, Stands, Emit;
    d := StepJump(m, g, CondBr(o, t, f), c, h.ip, h);
  }

  /** A phi of two arms, entered from one of them. */
  lemma StepPhi(m: Machine, g: Gen, first: Arm, second: Arm, c: Config, x: Value) returns (d: Config)
    requires var i := Phi(g.regs, [first, second]); Embeds(EmitDef(g, i).g, m.code)
    requires Stands(g, c) && first.pred != second.pred
    requires c.prev == first.pred || c.prev == second.pred
    requires Fetch(c.regs, if c.prev == first.pred then first.val else second.val) == Some(x)
    ensures var e := EmitDef(g, Phi(g.regs, [first, second]));
            Moves(m, c, 1, d, e.g, g.regs) && d.st == c.st && Fetch(d.regs, e.o) == Some(x)
  {
    hide Embeds, Moves, Stands, EmitDef;
    var arms := [first, second];
    assert FindArm(arms, c.prev) == Some(if c.prev == first.pred then first.val else second.val) by {
      assert arms[1..] == [second];
    }
    d := StepDefine(m, g, Phi(g.regs, arms), c, x);
  }

  lemma EmitEmbeds(g: Gen, i: Instr, code: seq<BasicBlock>)
    requires Embeds(Emit(g, i), code)
    ensures Embeds(g, code)
  {
  }

  lemma DefEmbeds(g: Gen, i: Instr, code: seq<BasicBlock>)
    requires Embeds(EmitDef(g, i).g, code)
    ensures Embeds(g, code)
  {
    EmbedsSame(Emit(g, i), EmitDef(g, i).g, code);
  }

  lemma LoadedEmbeds(g: Gen, v: Val, code: seq<BasicBlock>)
    requires Embeds(Loaded(g, v).g, code)
    ensures Embeds(g, code)
  {
    hide Embeds, EmitDef;
    if v.ptr { DefEmbeds(g, Load(g.regs, v.o), code); }
  }

  lemma ConvertedEmbeds(g: Gen, o: Operand, from: Ty, to: Ty, code: seq<BasicBlock>)
    requires Embeds(Converted(g, o, from, to).g, code)
    ensures Embeds(g, code)
  {
    hide Embeds, EmitDef;
    if from != to { DefEmbeds(g, Conv(g.regs, from, to, o), code); }
  }

  lemma TestedEmbeds(g: Gen, o: Operand, ty: Ty, code: seq<BasicBlock>)
    requires Embeds(Tested(g, o, ty).g, code)
    ensures Embeds(g, code)
  {
    DefEmbeds(g, Test(g.regs, ty, o), code);
  }

  lemma CastToEmbeds(g: Gen, o: Operand, from: Ty, to: Ty, code: seq<BasicBlock>)
    requires Embeds(CastTo(g, o, from, to).g, code)
    ensures Embeds(g, code)
  {
    hide Embeds, Tested, Converted;
    if to == Bool { TestedEmbeds(g, o, from, code); } else { ConvertedEmbeds(g, o, from, to, code); }
  }

  lemma LoadedRegs(g: Gen, v: Val)
    requires Below(v.o, g.regs)
    ensures var e := Loaded(g, v); g.regs <= e.g.regs && Below(e.o, e.g.regs)
  {
  }

  lemma ConvertedRegs(g: Gen, o: Operand, from: Ty, to: Ty)
    requires Below(o, g.regs)
    ensures var e := Converted(g, o, from, to); g.regs <= e.g.regs && Below(e.o, e.g.regs)
  {
  }

  // ---------------------------------------------------------------------------------------
  // Straight-line pieces

  lemma SimLoaded(m: Machine, g: Gen, v: Val, x: Value, c: Config) returns (n: nat, d: Config)
    requires Stands(g, c) && Embeds(Loaded(g, v).g, m.code)
    requires Holds(v, x, c.regs) && v.ty != Void && !v.ty.IsArray() && Below(v.o, g.regs)
    ensures Moves(m, c, n, d, Loaded(g, v).g, g.regs) && d.st == c.st
    ensures Fetch(d.regs, Loaded(g, v).o) == Some(Num(Read(c.st, x)))
  {
    hide Embeds, EmitDef;
    if v.ptr {
      d := StepDefine(m, g, Load(g.regs, v.o), c, Num(Get(c.st.mem, x.a)));
      n := 1;
    } else {
      MovesNot(m, c, g, g.regs);
      n, d := 0, c;
    }
  }

  lemma SimConverted(m: Machine, g: Gen, o: Operand, from: Ty, to: Ty, k: int, c: Config) returns (n: nat, d: Config)
    requires Stands(g, c) && Embeds(Converted(g, o, from, to).g, m.code)
    requires Fetch(c.regs, o) == Some(Num(k))
    ensures Moves(m, c, n, d, Converted(g, o, from, to).g, g.regs) && d.st == c.st
    ensures Fetch(d.regs, Converted(g, o, from, to).o) == Some(Num(Convert(m.cx.ops, from, to, k)))
  {
    hide Embeds, EmitDef;
    if from == to {
      MovesNot(m, c, g, g.regs);
      n, d := 0, c;
    } else {
      d := StepDefine(m, g, Conv(g.regs, from, to, o), c, Num(m.cx.ops.conv(from, to, k)));
      n := 1;
    }
  }

  lemma SimTested(m: Machine, g: Gen, o: Operand, ty: Ty, k: int, c: Config) returns (d: Config)
    requires Stands(g, c) && Embeds(Tested(g, o, ty).g, m.code)
    requires Fetch(c.regs, o) == Some(Num(k))
    ensures Moves(m, c, 1, d, Tested(g, o, ty).g, g.regs) && d.st == c.st
    ensures Fetch(d.regs, Tested(g, o, ty).o) == Some(Num(Truth(m.cx.ops, ty, k)))
  {
    hide Embeds, EmitDef;
    d := StepDefine(m, g, Test(g.regs, ty, o), c, Num(Truth(m.cx.ops, ty, k)));
  }

  lemma SimCastTo(m: Machine, g: Gen, o: Operand, from: Ty, to: Ty, k: int, c: Config) returns (n: nat, d: Config)
    requires Stands(g, c) && Embeds(CastTo(g, o, from, to).g, m.code)
    requires Fetch(c.regs, o) == Some(Num(k))
    ensures Moves(m, c, n, d, CastTo(g, o, from, to).g, g.regs) && d.st == c.st
    ensures Fetch(d.regs, CastTo(g, o, from, to).o) == Some(Num(CastValue(m.cx.ops, to, from, k)))
  {
    hide Embeds, Tested, Converted;
    if to == Bool {
      d := SimTested(m, g, o, from, k, c);
      n := 1;
    } else {
      n, d := SimConverted(m, g, o, from, to, k, c);
    }
  }

  /** Load, then test a scalar. */
  lemma SimLoadTest(m: Machine, g: Gen, v: Val, x: Value, c: Config) returns (n: nat, d: Config)
    requires Stands(g, c) && Holds(v, x, c.regs) && v.ty.IsScalar() && Below(v.o, g.regs)
    requires var l := Loaded(g, v); Embeds(Tested(l.g, l.o, v.ty).g, m.code)
    ensures var l := Loaded(g, v);
            var t := Tested(l.g, l.o, v.ty);
            && Moves(m, c, n, d, t.g, g.regs) && d.st == c.st
            && Fetch(d.regs, t.o) == Some(Num(Truth(m.cx.ops, v.ty, Read(c.st, x))))
  {
    hide Embeds, Loaded, Tested, Moves;
    var l := Loaded(g, v);
    TestedEmbeds(l.g, l.o, v.ty, m.code);
    var n1, c1 := SimLoaded(m, g, v, x, c);
    MovesStands(m, c, n1, c1, l.g, g.regs);
    var c2 := SimTested(m, l.g, l.o, v.ty, Read(c.st, x), c1);
    LoadedRegs(g, v);
    MovesOn(m, c, n1, c1, l.g, g.regs, 1, c2, Tested(l.g, l.o, v.ty).g, l.g.regs);
    n, d := n1 + 1, c2;
  }

  lemma MovesStands(m: Machine, c: Config, n: nat, d: Config, h: Gen, k: nat)
    requires Moves(m, c, n, d, h, k)
    ensures Stands(h, d) && Keep(c.regs, d.regs, k)
  {
  }

  /** Load an operand unless it is an array. */
  lemma SimTaken(m: Machine, g: Gen, v: Val, x: Value, c: Config) returns (n: nat, d: Config)
    requires Stands(g, c) && Embeds(Taken(g, v).g, m.code)
    requires Holds(v, x, c.regs) && v.ty != Void && Below(v.o, g.regs)
    ensures Moves(m, c, n, d, Taken(g, v).g, g.regs) && d.st == c.st
    ensures Fetch(d.regs, Taken(g, v).o) == Some(Rvalue(c.st, x, v.ty))
  {
    hide Embeds, Loaded;
    if v.ty.IsArray() {
      MovesNot(m, c, g, g.regs);
      n, d := 0, c;
    } else {
      n, d := SimLoaded(m, g, v, x, c);
    }
  }

  lemma TakenEmbeds(g: Gen, v: Val, code: seq<BasicBlock>)
    requires Embeds(Taken(g, v).g, code)
    ensures Embeds(g, code)
  {
    hide Embeds, Loaded;
    if !v.ty.IsArray() { LoadedEmbeds(g, v, code); }
  }

  lemma TakenRegs(g: Gen, v: Val)
    requires Below(v.o, g.regs)
    ensures var e := Taken(g, v); g.regs <= e.g.regs && Below(e.o, e.g.regs)
  {
    LoadedRegs(g, v);
  }

  /** Values of scalar type are numbers once they are loaded, values of array type are not. */
  predicate IsRvalue(x: Value, ty: Ty) {
    x.Num? <==> !ty.IsArray()
  }

  lemma HeldIsRvalue(v: Val, x: Value, regs: Registers, st: State)
    requires Holds(v, x, regs) && v.ty != Void
    ensures IsRvalue(Rvalue(st, x, v.ty), v.ty)
  {
  }

  lemma ElementEmbeds(g: Gen, o: Operand, ty: Ty, i: nat, code: seq<BasicBlock>)
    requires Embeds(EmitElement(g, o, ty, i).g, code)
    ensures Embeds(g, code)
  {
    hide Embeds, EmitDef;
    if ty.IsArray() { DefEmbeds(g, Element(g.regs, o, i), code); }
  }

  lemma ElementRegs(g: Gen, o: Operand, ty: Ty, i: nat)
    requires Below(o, g.regs)
    ensures var e := EmitElement(g, o, ty, i); g.regs <= e.g.regs && Below(e.o, e.g.regs)
  {
  }

  lemma SimElement(m: Machine, g: Gen, o: Operand, ty: Ty, i: nat, x: Value, c: Config) returns (n: nat, d: Config)
    requires Stands(g, c) && Embeds(EmitElement(g, o, ty, i).g, m.code)
    requires Fetch(c.regs, o) == Some(x) && IsRvalue(x, ty)
    ensures Moves(m, c, n, d, EmitElement(g, o, ty, i).g, g.regs) && d.st == c.st
    ensures Fetch(d.regs, EmitElement(g, o, ty, i).o) == Some(Num(ElementAt(c.st.mem, x, i)))
  {
    hide Embeds, EmitDef;
    if ty.IsArray() {
      d := StepDefine(m, g, Element(g.regs, o, i), c, Num(ElementAt(c.st.mem, x, i)));
      n := 1;
    } else {
      MovesNot(m, c, g, g.regs);
      n, d := 0, c;
    }
  }

  lemma ArithEmbeds(g: Gen, op: BinOp, t: Ty, a: Operand, lt: Ty, b: Operand, rt: Ty, code: seq<BasicBlock>)
    requires Embeds(EmitArith(g, op, t, a, lt, b, rt).g, code)
    ensures Embeds(g, code)
  {
    hide Embeds, Converted, EmitDef;
    var p := Converted(g, a, lt, t);
    var q := Converted(p.g, b, rt, t);
    DefEmbeds(q.g, Arith(q.g.regs, op, t, p.o, q.o), code);
    ConvertedEmbeds(p.g, b, rt, t, code);
    ConvertedEmbeds(g, a, lt, t, code);
  }

  /** Convert two numbers and apply an operator. */
  lemma SimArith(m: Machine, g: Gen, op: BinOp, t: Ty, a: Operand, lt: Ty, ka: int, b: Operand, rt: Ty, kb: int,
      c: Config) returns (n: nat, d: Config)
    requires Stands(g, c) && Embeds(EmitArith(g, op, t, a, lt, b, rt).g, m.code)
    requires Fetch(c.regs, a) == Some(Num(ka)) && Fetch(c.regs, b) == Some(Num(kb))
    requires Below(a, g.regs) && Below(b, g.regs)
    ensures var e := EmitArith(g, op, t, a, lt, b, rt);
            && Moves(m, c, n, d, e.g, g.regs) && d.st == c.st
            && Fetch(d.regs, e.o) ==
               Some(Num(m.cx.ops.bin(op, t, Convert(m.cx.ops, lt, t, ka), Convert(m.cx.ops, rt, t, kb))))
  {
    hide Embeds, Converted, EmitDef, Moves, Stands, Run, Keep;
    var p := Converted(g, a, lt, t);
    var q := Converted(p.g, b, rt, t);
    var i := Arith(q.g.regs, op, t, p.o, q.o);
    DefEmbeds(q.g, i, m.code);
    ConvertedEmbeds(p.g, b, rt, t, m.code);
    ConvertedRegs(g, a, lt, t);
    BelowMore(b, g.regs, p.g.regs);
    ConvertedRegs(p.g, b, rt, t);
    var n1, c1 := SimConverted(m, g, a, lt, t, ka, c);
    MovesStands(m, c, n1, c1, p.g, g.regs);
    KeepFetch(b, c.regs, c1.regs, g.regs);
    var n2, c2 := SimConverted(m, p.g, b, rt, t, kb, c1);
    MovesStands(m, c1, n2, c2, q.g, p.g.regs);
    KeepFetch(p.o, c1.regs, c2.regs, p.g.regs);
    var v := m.cx.ops.bin(op, t, Convert(m.cx.ops, lt, t, ka), Convert(m.cx.ops, rt, t, kb));
    d := StepDefine(m, q.g, i, c2, Num(v));
    MovesOn(m, c, n1, c1, p.g, g.regs, n2, c2, q.g, p.g.regs);
    MovesOn(m, c, n1 + n2, c2, q.g, g.regs, 1, d, EmitDef(q.g, i).g, q.g.regs);
    n := n1 + n2 + 1;
  }

  ghost predicate HoldNums(os: seq<Operand>, ks: seq<int>, regs: Registers) {
    |os| == |ks| && forall i | 0 <= i < |os| :: Fetch(regs, os[i]) == Some(Num(ks[i]))
  }

  lemma KeepNums(os: seq<Operand>, ks: seq<int>, before: Registers, after: Registers, k: nat)
    requires HoldNums(os, ks, before) && Keep(before, after, k) && AllBelow(os, k)
    ensures HoldNums(os, ks, after)
  {
    forall i | 0 <= i < |os| ensures Fetch(after, os[i]) == Some(Num(ks[i])) {
      KeepFetch(os[i], before, after, k);
    }
  }

  lemma OneMoreNum(os: seq<Operand>, ks: seq<int>, o: Operand, k: int, regs: Registers)
    requires HoldNums(os, ks, regs) && Fetch(regs, o) == Some(Num(k))
    ensures HoldNums(os + [o], ks + [k], regs)
  {
  }

  /** All elements of a binary operator on arrays. */
  lemma {:induction false} SimElements(m: Machine, g: Gen, op: BinOp, t: Ty, a: Operand, lt: Ty, xa: Value, b: Operand,
      rt: Ty, xb: Value, size: nat, c: Config) returns (n: nat, d: Config)
    requires Stands(g, c) && Embeds(EmitElements(g, op, t, a, lt, b, rt, size).g, m.code)
    requires Fetch(c.regs, a) == Some(xa) && IsRvalue(xa, lt) && Fetch(c.regs, b) == Some(xb) && IsRvalue(xb, rt)
    requires Below(a, g.regs) && Below(b, g.regs)
    ensures var es := EmitElements(g, op, t, a, lt, b, rt, size);
            && Moves(m, c, n, d, es.g, g.regs) && d.st == c.st
            && HoldNums(es.os, Zip(m.cx.ops, op, t, ElementOf(lt), xa, ElementOf(rt), xb, c.st.mem, size), d.regs)
    decreases size
  {
    hide Embeds, EmitElement, EmitArith, Moves, Stands, Run, Keep, HoldNums, IsRvalue, Frame, Below, ElementAt;
    if size == 0 {
      MovesNot(m, c, g, g.regs);
      NoNums(c.regs);
      n, d := 0, c;
    } else {
      var i := size - 1;
      var es := EmitElements(g, op, t, a, lt, b, rt, i);
      var x := EmitElement(es.g, a, lt, i);
      var y := EmitElement(x.g, b, rt, i);
      var e := EmitArith(y.g, op, t, x.o, ElementOf(lt), y.o, ElementOf(rt));
      ArithEmbeds(y.g, op, t, x.o, ElementOf(lt), y.o, ElementOf(rt), m.code);
      ElementEmbeds(x.g, b, rt, i, m.code);
      ElementEmbeds(es.g, a, lt, i, m.code);
      FrameSelf(g);
      ThenElements(g, g, op, t, a, lt, b, rt, i);
      BelowMore(a, g.regs, es.g.regs);
      ElementRegs(es.g, a, lt, i);
      BelowMore(b, g.regs, x.g.regs);
      ElementRegs(x.g, b, rt, i);
      BelowMore(x.o, x.g.regs, y.g.regs);
      var n1, c1 := SimElements(m, g, op, t, a, lt, xa, b, rt, xb, i, c);
      MovesStands(m, c, n1, c1, es.g, g.regs);
      KeepFetch(a, c.regs, c1.regs, g.regs);
      KeepFetch(b, c.regs, c1.regs, g.regs);
      var n2, c2 := SimElement(m, es.g, a, lt, i, xa, c1);
      MovesStands(m, c1, n2, c2, x.g, es.g.regs);
      BelowMore(b, g.regs, es.g.regs);
      KeepFetch(b, c1.regs, c2.regs, es.g.regs);
      var n3, c3 := SimElement(m, x.g, b, rt, i, xb, c2);
      MovesStands(m, c2, n3, c3, y.g, x.g.regs);
      KeepFetch(x.o, c2.regs, c3.regs, x.g.regs);
      var ka, kb := ElementAt(c.st.mem, xa, i), ElementAt(c.st.mem, xb, i);
      var n4;
      n4, d := SimArith(m, y.g, op, t, x.o, ElementOf(lt), ka, y.o, ElementOf(rt), kb, c3);
      MovesOn(m, c, n1, c1, es.g, g.regs, n2, c2, x.g, es.g.regs);
      MovesOn(m, c, n1 + n2, c2, x.g, g.regs, n3, c3, y.g, x.g.regs);
      MovesOn(m, c, n1 + n2 + n3, c3, y.g, g.regs, n4, d, e.g, y.g.regs);
      MovesOn(m, c1, n2, c2, x.g, es.g.regs, n3, c3, y.g, x.g.regs);
      MovesOn(m, c1, n2 + n3, c3, y.g, es.g.regs, n4, d, e.g, y.g.regs);
      MovesStands(m, c1, n2 + n3 + n4, d, e.g, es.g.regs);
      n := n1 + n2 + n3 + n4;
      var ks := Zip(m.cx.ops, op, t, ElementOf(lt), xa, ElementOf(rt), xb, c.st.mem, i);
      KeepNums(es.os, ks, c1.regs, d.regs, es.g.regs);
      OneMoreNum(es.os, ks, e.o, m.cx.ops.bin(op, t, Convert(m.cx.ops, ElementOf(lt), t, ka),
                                              Convert(m.cx.ops, ElementOf(rt), t, kb)), d.regs);
    }
  }

  lemma NoNums(regs: Registers)
    ensures HoldNums([], [], regs)
  {
  }

  lemma {:induction false} ReduceEmbeds(g: Gen, op: BinOp, os: seq<Operand>, code: seq<BasicBlock>)
    requires Embeds(EmitReduce(g, op, os).g, code)
    ensures Embeds(g, code)
    decreases |os|
  {
    hide Embeds, EmitDef;
    if |os| > 1 {
      var r := EmitReduce(g, op, os[..|os| - 1]);
      DefEmbeds(r.g, Arith(r.g.regs, ReduceOp(op), Bool, r.o, os[|os| - 1]), code);
      ReduceEmbeds(g, op, os[..|os| - 1], code);
    }
  }

  lemma {:induction false} SimReduce(m: Machine, g: Gen, op: BinOp, os: seq<Operand>, ks: seq<int>, c: Config)
    returns (n: nat, d: Config)
    requires Stands(g, c) && Embeds(EmitReduce(g, op, os).g, m.code)
    requires HoldNums(os, ks, c.regs) && AllBelow(os, g.regs)
    ensures var e := EmitReduce(g, op, os);
            Moves(m, c, n, d, e.g, g.regs) && d.st == c.st && Fetch(d.regs, e.o) == Some(Num(Reduce(m.cx.ops, op, ks)))
    decreases |os|
  {
    hide Embeds, EmitDef, Moves, Stands, Run, Keep, Frame;
    if |os| <= 1 {
      MovesNot(m, c, g, g.regs);
      n, d := 0, c;
    } else {
      var last := |os| - 1;
      var r := EmitReduce(g, op, os[..last]);
      var i := Arith(r.g.regs, ReduceOp(op), Bool, r.o, os[last]);
      DefEmbeds(r.g, i, m.code);
      FrameSelf(g);
      ThenReduce(g, g, op, os[..last]);
      var n1, c1 := SimReduce(m, g, op, os[..last], ks[..last], c);
      MovesStands(m, c, n1, c1, r.g, g.regs);
      KeepFetch(os[last], c.regs, c1.regs, g.regs);
      d := StepDefine(m, r.g, i, c1, Num(Reduce(m.cx.ops, op, ks)));
      MovesOn(m, c, n1, c1, r.g, g.regs, 1, d, EmitDef(r.g, i).g, r.g.regs);
      n := n1 + 1;
    }
  }

  /** Packing numbers into a new array. */
  lemma SimPack(m: Machine, g: Gen, os: seq<Operand>, ks: seq<int>, c: Config) returns (d: Config)
    requires Stands(g, c) && HoldNums(os, ks, c.regs)
    requires Embeds(EmitDef(g, Pack(g.regs, os)).g, m.code)
    ensures var e := EmitDef(g, Pack(g.regs, os));
            Moves(m, c, 1, d, e.g, g.regs) && d.st == c.st && Fetch(d.regs, e.o) == Some(Arr(ks))
  {
    hide Embeds, EmitDef;
    assert NumsOf(c.regs, os) == ks;
    d := StepDefine(m, g, Pack(g.regs, os), c, Arr(ks));
  }

  /** A binary operator on two rvalues at least one of which is an array. */
  lemma SimZip(m: Machine, g: Gen, op: BinOp, t: Ty, a: Operand, lt: Ty, xa: Value, b: Operand, rt: Ty, xb: Value,
      size: nat, c: Config) returns (n: nat, d: Config)
    requires Stands(g, c) && Embeds(EmitZip(g, op, t, a, lt, b, rt, size).g, m.code)
    requires Fetch(c.regs, a) == Some(xa) && IsRvalue(xa, lt) && Fetch(c.regs, b) == Some(xb) && IsRvalue(xb, rt)
    requires Below(a, g.regs) && Below(b, g.regs)
    ensures var e := EmitZip(g, op, t, a, lt, b, rt, size);
            var ks := Zip(m.cx.ops, op, t, ElementOf(lt), xa, ElementOf(rt), xb, c.st.mem, size);
            && Moves(m, c, n, d, e.g, g.regs) && d.st == c.st
            && Fetch(d.regs, e.o) == Some(if op.IsRelational() then Num(Reduce(m.cx.ops, op, ks)) else Arr(ks))
  {
    hide Embeds, EmitElements, EmitReduce, EmitDef, Moves, Stands, Run, Keep, HoldNums, Zip, Reduce, Frame;
    var es := EmitElements(g, op, t, a, lt, b, rt, size);
    var ks := Zip(m.cx.ops, op, t, ElementOf(lt), xa, ElementOf(rt), xb, c.st.mem, size);
    FrameSelf(g);
    ThenElements(g, g, op, t, a, lt, b, rt, size);
    if op.IsRelational() { ReduceEmbeds(es.g, op, es.os, m.code); }
    else { DefEmbeds(es.g, Pack(es.g.regs, es.os), m.code); }
    var n1, c1 := SimElements(m, g, op, t, a, lt, xa, b, rt, xb, size, c);
    MovesStands(m, c, n1, c1, es.g, g.regs);
    if op.IsRelational() {
      var n2;
      n2, d := SimReduce(m, es.g, op, es.os, ks, c1);
      MovesOn(m, c, n1, c1, es.g, g.regs, n2, d, EmitReduce(es.g, op, es.os).g, es.g.regs);
      n := n1 + n2;
    } else {
      d := SimPack(m, es.g, es.os, ks, c1);
      MovesOn(m, c, n1, c1, es.g, g.regs, 1, d, EmitDef(es.g, Pack(es.g.regs, es.os)).g, es.g.regs);
      n := n1 + 1;
    }
  }

  lemma ZipEmbeds(g: Gen, op: BinOp, t: Ty, a: Operand, lt: Ty, b: Operand, rt: Ty, size: nat, code: seq<BasicBlock>)
    requires Embeds(EmitZip(g, op, t, a, lt, b, rt, size).g, code)
    ensures Embeds(g, code)
  {
    hide Embeds, EmitElements, EmitReduce, EmitDef;
    var es := EmitElements(g, op, t, a, lt, b, rt, size);
    if op.IsRelational() { ReduceEmbeds(es.g, op, es.os, code); }
    else { DefEmbeds(es.g, Pack(es.g.regs, es.os), code); }
    ElementsEmbeds(g, op, t, a, lt, b, rt, size, code);
  }

  lemma {:induction false} ElementsEmbeds(g: Gen, op: BinOp, t: Ty, a: Operand, lt: Ty, b: Operand, rt: Ty, size: nat,
      code: seq<BasicBlock>)
    requires Embeds(EmitElements(g, op, t, a, lt, b, rt, size).g, code)
    ensures Embeds(g, code)
    decreases size
  {
    hide Embeds, EmitElement, EmitArith;
    if size > 0 {
      var es := EmitElements(g, op, t, a, lt, b, rt, size - 1);
      var x := EmitElement(es.g, a, lt, size - 1);
      var y := EmitElement(x.g, b, rt, size - 1);
      ArithEmbeds(y.g, op, t, x.o, ElementOf(lt), y.o, ElementOf(rt), code);
      ElementEmbeds(x.g, b, rt, size - 1, code);
      ElementEmbeds(es.g, a, lt, size - 1, code);
      ElementsEmbeds(g, op, t, a, lt, b, rt, size - 1, code);
    }
  }

  /** A binary operator on two values that may still have to be loaded. */
  lemma SimBinary(m: Machine, g: Gen, op: BinOp, a: Val, xa: Value, b: Val, xb: Value, c: Config)
    returns (n: nat, d: Config)
    requires Stands(g, c) && Holds(a, xa, c.regs) && Holds(b, xb, c.regs)
    requires Below(a.o, g.regs) && Below(b.o, g.regs)
    requires var r := EmitBinary(g, op, a, b); r.Made? && Embeds(r.g, m.code)
    ensures var r := EmitBinary(g, op, a, b);
            && Moves(m, c, n, d, r.g, g.regs) && d.st == c.st
            && Fetch(d.regs, r.v.o) == Some(BinaryResult(m.cx.ops, op, a.ty, xa, b.ty, xb, c.st))
  {
    hide Embeds, Taken, Promoted, EmitOperator, Moves, Stands, Run, Keep, Holds, Below, Rvalue, Frame, Promotion,
      PromotedValue, OperatorResult, IsRvalue;
    var lt, rt := Promotion(a.ty, b.ty), Promotion(b.ty, a.ty);
    var x := Taken(g, a);
    var y := Taken(x.g, b);
    var p := Promoted(y.g, x.o, a.ty, lt);
    var q := Promoted(p.g, y.o, b.ty, rt);
    var r := EmitOperator(q.g, op, p.o, lt, q.o, rt);
    BinaryTypes(g, op, a, b);
    OperatorEmbeds(q.g, op, p.o, lt, q.o, rt, m.code);
    PromotedEmbeds(p.g, y.o, b.ty, rt, m.code);
    PromotedEmbeds(y.g, x.o, a.ty, lt, m.code);
    var n1, c1 := SimOperands(m, g, a, xa, b, xb, c);
    TakenRegs(g, a);
    BelowMore(b.o, g.regs, x.g.regs);
    TakenRegs(x.g, b);
    BelowMore(x.o, x.g.regs, y.g.regs);
    MovesStands(m, c, n1, c1, y.g, g.regs);
    var ka, kb := Rvalue(c.st, xa, a.ty), Rvalue(c.st, xb, b.ty);
    HeldIsRvalue(a, xa, c.regs, c.st);
    HeldIsRvalue(b, xb, c.regs, c.st);
    var n2, c2 := SimPromoted(m, y.g, x.o, a.ty, lt, ka, c1);
    MovesStands(m, c1, n2, c2, p.g, y.g.regs);
    PromotedRegs(y.g, x.o, a.ty, lt);
    KeepFetch(y.o, c1.regs, c2.regs, y.g.regs);
    BelowMore(y.o, y.g.regs, p.g.regs);
    var n3, c3 := SimPromoted(m, p.g, y.o, b.ty, rt, kb, c2);
    MovesStands(m, c2, n3, c3, q.g, p.g.regs);
    PromotedRegs(p.g, y.o, b.ty, rt);
    KeepFetch(p.o, c2.regs, c3.regs, p.g.regs);
    BelowMore(p.o, p.g.regs, q.g.regs);
    var n4;
    n4, d := SimOperator(m, q.g, op, p.o, lt, PromotedValue(m.cx.ops, a.ty, lt, ka), q.o, rt,
                         PromotedValue(m.cx.ops, b.ty, rt, kb), c3);
    MovesOn(m, c, n1, c1, y.g, g.regs, n2, c2, p.g, y.g.regs);
    MovesOn(m, c, n1 + n2, c2, p.g, g.regs, n3, c3, q.g, p.g.regs);
    MovesOn(m, c, n1 + n2 + n3, c3, q.g, g.regs, n4, d, r.g, q.g.regs);
    n := n1 + n2 + n3 + n4;
  }

  lemma ScalarRvalue(st: State, x: Value, ty: Ty)
    requires ty.IsScalar()
    ensures Rvalue(st, x, ty) == Num(Read(st, x))
  {
  }

  /** No operand of an operator is void, and what is promoted is a scalar. */
  lemma BinaryTypes(g: Gen, op: BinOp, a: Val, b: Val)
    requires EmitBinary(g, op, a, b).Made?
    ensures a.ty != Void && b.ty != Void
    ensures Promotes(a.ty, Promotion(a.ty, b.ty)) && Promotes(b.ty, Promotion(b.ty, a.ty))
  {
    hide Taken, Promoted, EmitProduct, EmitZip, EmitArith;
  }

  predicate Promotes(from: Ty, to: Ty) {
    from == to || (from.IsScalar() && to.IsArray())
  }

  lemma PromotedEmbeds(g: Gen, o: Operand, from: Ty, to: Ty, code: seq<BasicBlock>)
    requires Embeds(Promoted(g, o, from, to).g, code)
    ensures Embeds(g, code)
  {
    hide Embeds, Converted, EmitDef;
    if from != to && to.Vec? {
      var c := Converted(g, o, from, to.elem);
      DefEmbeds(c.g, Pack(c.g.regs, Spread(c.o, Const(0), to.size)), code);
      ConvertedEmbeds(g, o, from, to.elem, code);
    }
  }

  lemma PromotedRegs(g: Gen, o: Operand, from: Ty, to: Ty)
    requires Below(o, g.regs)
    ensures var e := Promoted(g, o, from, to); g.regs <= e.g.regs && Below(e.o, e.g.regs)
  {
    hide Frame, Promoted;
    FrameSelf(g);
    ThenPromoted(g, g, o, from, to);
  }

  lemma SimPromoted(m: Machine, g: Gen, o: Operand, from: Ty, to: Ty, x: Value, c: Config) returns (n: nat, d: Config)
    requires Stands(g, c) && Fetch(c.regs, o) == Some(x) && IsRvalue(x, from) && Promotes(from, to)
    requires Embeds(Promoted(g, o, from, to).g, m.code)
    ensures var e := Promoted(g, o, from, to);
            && Moves(m, c, n, d, e.g, g.regs) && d.st == c.st
            && Fetch(d.regs, e.o) == Some(PromotedValue(m.cx.ops, from, to, x))
    ensures IsRvalue(PromotedValue(m.cx.ops, from, to, x), to)
  {
    hide Embeds, Converted, EmitDef, Moves, Stands, Run, Keep;
    if from == to {
      MovesNot(m, c, g, g.regs);
      n, d := 0, c;
    } else {
      var r := Converted(g, o, from, to.elem);
      var i := Pack(r.g.regs, Spread(r.o, Const(0), to.size));
      DefEmbeds(r.g, i, m.code);
      var k := Convert(m.cx.ops, from, to.elem, x.n);
      var n1, c1 := SimConverted(m, g, o, from, to.elem, x.n, c);
      MovesStands(m, c, n1, c1, r.g, g.regs);
      d := SimPack(m, r.g, Spread(r.o, Const(0), to.size), Spread(k, 0, to.size), c1);
      ConvertedGrows(g, o, from, to.elem);
      MovesOn(m, c, n1, c1, r.g, g.regs, 1, d, EmitDef(r.g, i).g, r.g.regs);
      n := n1 + 1;
    }
  }

  lemma ConvertedGrows(g: Gen, o: Operand, from: Ty, to: Ty)
    ensures g.regs <= Converted(g, o, from, to).g.regs
  {
  }

  /** Two operands are loaded one after the other. */
  lemma SimOperands(m: Machine, g: Gen, a: Val, xa: Value, b: Val, xb: Value, c: Config) returns (n: nat, d: Config)
    requires Stands(g, c) && Holds(a, xa, c.regs) && Holds(b, xb, c.regs) && a.ty != Void && b.ty != Void
    requires Below(a.o, g.regs) && Below(b.o, g.regs)
    requires var x := Taken(g, a); Embeds(Taken(x.g, b).g, m.code)
    ensures var x := Taken(g, a);
            var y := Taken(x.g, b);
            && Moves(m, c, n, d, y.g, g.regs) && d.st == c.st
            && Fetch(d.regs, x.o) == Some(Rvalue(c.st, xa, a.ty)) && Fetch(d.regs, y.o) == Some(Rvalue(c.st, xb, b.ty))
  {
    hide Embeds, Taken, Moves, Stands, Run, Keep, Holds, Below, Rvalue;
    var x := Taken(g, a);
    var y := Taken(x.g, b);
    TakenEmbeds(x.g, b, m.code);
    TakenRegs(g, a);
    BelowMore(b.o, g.regs, x.g.regs);
    TakenRegs(x.g, b);
    var n1, c1 := SimTaken(m, g, a, xa, c);
    MovesStands(m, c, n1, c1, x.g, g.regs);
    KeepHolds(b, xb, c.regs, c1.regs, g.regs);
    var n2;
    n2, d := SimTaken(m, x.g, b, xb, c1);
    MovesStands(m, c1, n2, d, y.g, x.g.regs);
    KeepFetch(x.o, c1.regs, d.regs, x.g.regs);
    MovesOn(m, c, n1, c1, x.g, g.regs, n2, d, y.g, x.g.regs);
    n := n1 + n2;
  }

  lemma ProductEmbeds(g: Gen, a: Operand, lt: Ty, b: Operand, rt: Ty, code: seq<BasicBlock>)
    requires lt.Vec? && rt.Vec? && Embeds(EmitProduct(g, a, lt, b, rt).g, code)
    ensures Embeds(g, code)
  {
    hide Embeds, EmitArrayCast, EmitDef;
    var t := ProductElem(lt, rt);
    var x := EmitArrayCast(g, a, lt.elem, t, lt.size);
    var y := EmitArrayCast(x.g, b, rt.elem, t, rt.size);
    DefEmbeds(y.g, Product(y.g.regs, t, x.o, lt.size, y.o, rt.size, ProductSize(lt, rt)), code);
    ArrayCastEmbeds(x.g, b, rt.elem, t, rt.size, code);
    ArrayCastEmbeds(g, a, lt.elem, t, lt.size, code);
  }

  lemma OperatorEmbeds(g: Gen, op: BinOp, a: Operand, lt: Ty, b: Operand, rt: Ty, code: seq<BasicBlock>)
    requires var r := EmitOperator(g, op, a, lt, b, rt); r.Made? && Embeds(r.g, code)
    ensures Embeds(g, code)
  {
    hide Embeds, EmitProduct, EmitZip, EmitArith, IsElementwise, IsProduct;
    if IsProduct(op, lt, rt) {
      ProductTypes(op, lt, rt);
      ProductEmbeds(g, a, lt, b, rt, code);
    } else {
      var t := OperandType(op, lt, rt).value;
      if IsElementwise(op, lt, rt) { ZipEmbeds(g, op, t, a, lt, b, rt, ZipSize(lt, rt), code); }
      else { ArithEmbeds(g, op, t, a, lt, b, rt, code); }
    }
  }

  lemma SimProduct(m: Machine, g: Gen, a: Operand, lt: Ty, x: Value, b: Operand, rt: Ty, y: Value, c: Config)
    returns (n: nat, d: Config)
    requires lt.Vec? && rt.Vec? && Stands(g, c) && Embeds(EmitProduct(g, a, lt, b, rt).g, m.code)
    requires Fetch(c.regs, a) == Some(x) && !x.Num? && Below(a, g.regs)
    requires Fetch(c.regs, b) == Some(y) && !y.Num? && Below(b, g.regs)
    ensures var e := EmitProduct(g, a, lt, b, rt);
            && Moves(m, c, n, d, e.g, g.regs) && d.st == c.st
            && Fetch(d.regs, e.o) == Some(ProductResult(m.cx.ops, lt, x, rt, y, c.st.mem))
  {
    hide Embeds, EmitDef, EmitArrayCast, CastArray, Moves, Stands, Run, Keep, Frame, ProductOf;
    var t := ProductElem(lt, rt);
    var p := EmitArrayCast(g, a, lt.elem, t, lt.size);
    var q := EmitArrayCast(p.g, b, rt.elem, t, rt.size);
    var i := Product(q.g.regs, t, p.o, lt.size, q.o, rt.size, ProductSize(lt, rt));
    DefEmbeds(q.g, i, m.code);
    ArrayCastEmbeds(p.g, b, rt.elem, t, rt.size, m.code);
    FrameSelf(g);
    ThenArrayCast(g, g, a, lt.elem, t, lt.size);
    FrameSelf(p.g);
    ThenArrayCast(p.g, p.g, b, rt.elem, t, rt.size);
    var u := CastArray(m.cx.ops, lt.elem, t, x, c.st.mem, lt.size);
    var v := CastArray(m.cx.ops, rt.elem, t, y, c.st.mem, rt.size);
    CastIsArray(m.cx.ops, lt.elem, t, x, c.st.mem, lt.size);
    CastIsArray(m.cx.ops, rt.elem, t, y, c.st.mem, rt.size);
    var n1, c1 := SimArrayCast(m, g, a, x, lt.elem, t, lt.size, c);
    MovesStands(m, c, n1, c1, p.g, g.regs);
    KeepFetch(b, c.regs, c1.regs, g.regs);
    var n2, c2 := SimArrayCast(m, p.g, b, y, rt.elem, t, rt.size, c1);
    MovesStands(m, c1, n2, c2, q.g, p.g.regs);
    KeepFetch(p.o, c1.regs, c2.regs, p.g.regs);
    d := StepDefine(m, q.g, i, c2, ProductOf(m.cx.ops, t, u, lt.size, v, rt.size, ProductSize(lt, rt), c.st.mem));
    MovesOn(m, c, n1, c1, p.g, g.regs, n2, c2, q.g, p.g.regs);
    MovesOn(m, c, n1 + n2, c2, q.g, g.regs, 1, d, EmitDef(q.g, i).g, q.g.regs);
    n := n1 + n2 + 1;
  }

  lemma CastIsArray(ops: Ops, from: Ty, to: Ty, x: Value, mem: Memory, size: nat)
    requires !x.Num?
    ensures !CastArray(ops, from, to, x, mem, size).Num?
  {
  }

  /** An operator on loaded and promoted operands. */
  lemma SimOperator(m: Machine, g: Gen, op: BinOp, a: Operand, lt: Ty, x: Value, b: Operand, rt: Ty, y: Value,
                    c: Config)
    returns (n: nat, d: Config)
    requires Stands(g, c) && Fetch(c.regs, a) == Some(x) && Fetch(c.regs, b) == Some(y)
    requires IsRvalue(x, lt) && IsRvalue(y, rt) && Below(a, g.regs) && Below(b, g.regs)
    requires var r := EmitOperator(g, op, a, lt, b, rt); r.Made? && Embeds(r.g, m.code)
    ensures var r := EmitOperator(g, op, a, lt, b, rt);
            && Moves(m, c, n, d, r.g, g.regs) && d.st == c.st
            && Fetch(d.regs, r.v.o) == Some(OperatorResult(m.cx.ops, op, lt, x, rt, y, c.st.mem))
  {
    hide Embeds, EmitProduct, EmitZip, EmitArith, Moves, Stands, Run, Keep, Zip, Reduce, IsElementwise, IsProduct,
      ProductResult;
    if IsProduct(op, lt, rt) {
      ProductTypes(op, lt, rt);
      n, d := SimProduct(m, g, a, lt, x, b, rt, y, c);
    } else {
      OperandsNotVoid(op, lt, rt);
      var t := OperandType(op, lt, rt).value;
      if IsElementwise(op, lt, rt) {
        n, d := SimZip(m, g, op, t, a, lt, x, b, rt, y, ZipSize(lt, rt), c);
      } else {
        n, d := SimArith(m, g, op, t, a, lt, x.n, b, rt, y.n, c);
      }
    }
  }

  lemma OperandsNotVoid(op: BinOp, lt: Ty, rt: Ty)
    requires OperandType(op, lt, rt).Some?
    ensures lt != Void && rt != Void
    ensures !IsElementwise(op, lt, rt) ==> lt.IsScalar() && rt.IsScalar()
  {
  }

  lemma {:induction false} UnpackedEmbeds(g: Gen, o: Operand, size: nat, code: seq<BasicBlock>)
    requires Embeds(Unpacked(g, o, size).g, code)
    ensures Embeds(g, code)
    decreases size
  {
    hide Embeds, EmitDef;
    if size > 0 {
      var es := Unpacked(g, o, size - 1);
      DefEmbeds(es.g, Element(es.g.regs, o, size - 1), code);
      UnpackedEmbeds(g, o, size - 1, code);
    }
  }

  function ElementsOf(mem: Memory, x: Value, size: nat): (ks: seq<int>)
    ensures |ks| == size
  {
    if size == 0 then [] else ElementsOf(mem, x, size - 1) + [ElementAt(mem, x, size - 1)]
  }

  lemma {:induction false} SimUnpacked(m: Machine, g: Gen, o: Operand, x: Value, size: nat, c: Config)
    returns (n: nat, d: Config)
    requires Stands(g, c) && Embeds(Unpacked(g, o, size).g, m.code)
    requires Fetch(c.regs, o) == Some(x) && !x.Num? && Below(o, g.regs)
    ensures var es := Unpacked(g, o, size);
            Moves(m, c, n, d, es.g, g.regs) && d.st == c.st && HoldNums(es.os, ElementsOf(c.st.mem, x, size), d.regs)
    decreases size
  {
    hide Embeds, EmitDef, Moves, Stands, Run, Keep, HoldNums, Frame, ElementAt;
    if size == 0 {
      MovesNot(m, c, g, g.regs);
      NoNums(c.regs);
      n, d := 0, c;
    } else {
      var es := Unpacked(g, o, size - 1);
      var i := Element(es.g.regs, o, size - 1);
      DefEmbeds(es.g, i, m.code);
      FrameSelf(g);
      ThenUnpacked(g, g, o, size - 1);
      var n1, c1 := SimUnpacked(m, g, o, x, size - 1, c);
      MovesStands(m, c, n1, c1, es.g, g.regs);
      KeepFetch(o, c.regs, c1.regs, g.regs);
      var k := ElementAt(c.st.mem, x, size - 1);
      d := StepDefine(m, es.g, i, c1, Num(k));
      var e := EmitDef(es.g, i);
      MovesStands(m, c1, 1, d, e.g, es.g.regs);
      MovesOn(m, c, n1, c1, es.g, g.regs, 1, d, e.g, es.g.regs);
      n := n1 + 1;
      KeepNums(es.os, ElementsOf(c.st.mem, x, size - 1), c1.regs, d.regs, es.g.regs);
      OneMoreNum(es.os, ElementsOf(c.st.mem, x, size - 1), e.o, k, d.regs);
    }
  }

  function UnaryOn(ops: Ops, op: UnOp, elem: Ty, ks: seq<int>): (rs: seq<int>)
    ensures |rs| == |ks|
  {
    if |ks| == 0 then []
    else UnaryOn(ops, op, elem, ks[..|ks| - 1]) + [ops.un(op, elem, ks[|ks| - 1])]
  }

  lemma {:induction false} UnaryOnEach(ops: Ops, op: UnOp, elem: Ty, x: Value, mem: Memory, size: nat)
    ensures UnaryOn(ops, op, elem, ElementsOf(mem, x, size)) == UnaryEach(ops, op, elem, x, mem, size)
  {
    if size > 0 {
      UnaryOnEach(ops, op, elem, x, mem, size - 1);
      assert ElementsOf(mem, x, size)[..size - 1] == ElementsOf(mem, x, size - 1);
    }
  }

  lemma {:induction false} EachEmbeds(g: Gen, op: UnOp, elem: Ty, os: seq<Operand>, code: seq<BasicBlock>)
    requires Embeds(EmitEach(g, op, elem, os).g, code)
    ensures Embeds(g, code)
    decreases |os|
  {
    hide Embeds, EmitDef;
    if |os| > 0 {
      var es := EmitEach(g, op, elem, os[..|os| - 1]);
      DefEmbeds(es.g, Negate(es.g.regs, op, elem, os[|os| - 1]), code);
      EachEmbeds(g, op, elem, os[..|os| - 1], code);
    }
  }

  lemma {:induction false} SimEach(m: Machine, g: Gen, op: UnOp, elem: Ty, os: seq<Operand>, ks: seq<int>, c: Config)
    returns (n: nat, d: Config)
    requires Stands(g, c) && Embeds(EmitEach(g, op, elem, os).g, m.code)
    requires HoldNums(os, ks, c.regs) && AllBelow(os, g.regs)
    ensures var es := EmitEach(g, op, elem, os);
            Moves(m, c, n, d, es.g, g.regs) && d.st == c.st && HoldNums(es.os, UnaryOn(m.cx.ops, op, elem, ks), d.regs)
    decreases |os|
  {
    hide Embeds, EmitDef, Moves, Stands, Run, Keep, Frame;
    if |os| == 0 {
      MovesNot(m, c, g, g.regs);
      n, d := 0, c;
    } else {
      var last := |os| - 1;
      var es := EmitEach(g, op, elem, os[..last]);
      var i := Negate(es.g.regs, op, elem, os[last]);
      DefEmbeds(es.g, i, m.code);
      FrameSelf(g);
      ThenEach(g, g, op, elem, os[..last]);
      var n1, c1 := SimEach(m, g, op, elem, os[..last], ks[..last], c);
      MovesStands(m, c, n1, c1, es.g, g.regs);
      KeepFetch(os[last], c.regs, c1.regs, g.regs);
      var k := m.cx.ops.un(op, elem, ks[last]);
      d := StepDefine(m, es.g, i, c1, Num(k));
      var e := EmitDef(es.g, i);
      MovesStands(m, c1, 1, d, e.g, es.g.regs);
      MovesOn(m, c, n1, c1, es.g, g.regs, 1, d, e.g, es.g.regs);
      n := n1 + 1;
      KeepNums(es.os, UnaryOn(m.cx.ops, op, elem, ks[..last]), c1.regs, d.regs, es.g.regs);
      OneMoreNum(es.os, UnaryOn(m.cx.ops, op, elem, ks[..last]), e.o, k, d.regs);
    }
  }

  /** A unary operator on an array: all elements are loaded before the operator is applied to any. */
  lemma SimUnaryEach(m: Machine, g: Gen, op: UnOp, ty: Ty, o: Operand, x: Value, c: Config) returns (n: nat, d: Config)
    requires ty.IsArray() && Stands(g, c) && Embeds(EmitUnaryEach(g, op, ty, o).g, m.code)
    requires Fetch(c.regs, o) == Some(x) && !x.Num? && Below(o, g.regs)
    ensures var e := EmitUnaryEach(g, op, ty, o);
            && Moves(m, c, n, d, e.g, g.regs) && d.st == c.st
            && Fetch(d.regs, e.o) == Some(Arr(UnaryEach(m.cx.ops, op, ty.elem, x, c.st.mem, ty.size)))
  {
    hide Embeds, EmitDef, Unpacked, EmitEach, Moves, Stands, Run, Keep, HoldNums, Frame, UnaryOn, ElementsOf, UnaryEach;
    var u := Unpacked(g, o, ty.size);
    var y := EmitEach(u.g, op, ty.elem, u.os);
    var ks := ElementsOf(c.st.mem, x, ty.size);
    DefEmbeds(y.g, Pack(y.g.regs, y.os), m.code);
    EachEmbeds(u.g, op, ty.elem, u.os, m.code);
    FrameSelf(g);
    ThenUnpacked(g, g, o, ty.size);
    FrameSelf(u.g);
    ThenEach(u.g, u.g, op, ty.elem, u.os);
    var n1, c1 := SimUnpacked(m, g, o, x, ty.size, c);
    MovesStands(m, c, n1, c1, u.g, g.regs);
    var n2, c2 := SimEach(m, u.g, op, ty.elem, u.os, ks, c1);
    MovesStands(m, c1, n2, c2, y.g, u.g.regs);
    d := SimPack(m, y.g, y.os, UnaryOn(m.cx.ops, op, ty.elem, ks), c2);
    UnaryOnEach(m.cx.ops, op, ty.elem, x, c.st.mem, ty.size);
    MovesOn(m, c, n1, c1, u.g, g.regs, n2, c2, y.g, u.g.regs);
    MovesOn(m, c, n1 + n2, c2, y.g, g.regs, 1, d, EmitDef(y.g, Pack(y.g.regs, y.os)).g, y.g.regs);
    n := n1 + n2 + 1;
  }

  lemma {:induction false} CellsEmbed(g: Gen, target: Operand, elem: Ty, o: Operand, ty: Ty, size: nat,
      code: seq<BasicBlock>)
    requires Embeds(EmitCells(g, target, elem, o, ty, size), code)
    ensures Embeds(g, code)
    decreases size
  {
    hide Embeds, EmitDef, EmitElement, Converted, Emit;
    if size > 0 {
      var before := EmitCells(g, target, elem, o, ty, size - 1);
      CellEmbeds(before, target, elem, o, ty, size - 1, code);
      CellsEmbed(g, target, elem, o, ty, size - 1, code);
    }
  }

  lemma CellEmbeds(g: Gen, target: Operand, elem: Ty, o: Operand, ty: Ty, i: nat, code: seq<BasicBlock>)
    requires var l := EmitDef(g, Gep(g.regs, target, Const(i)));
             var r := EmitElement(l.g, o, ty, i);
             var c := Converted(r.g, r.o, ElementOf(ty), elem);
             Embeds(Emit(c.g, Store(l.o, c.o)), code)
    ensures var l := EmitDef(g, Gep(g.regs, target, Const(i)));
            var r := EmitElement(l.g, o, ty, i);
            Embeds(g, code) && Embeds(l.g, code) && Embeds(r.g, code) &&
            Embeds(Converted(r.g, r.o, ElementOf(ty), elem).g, code)
  {
    hide Embeds, EmitDef, EmitElement, Converted, Emit;
    var l := EmitDef(g, Gep(g.regs, target, Const(i)));
    var r := EmitElement(l.g, o, ty, i);
    var c := Converted(r.g, r.o, ElementOf(ty), elem);
    EmitEmbeds(c.g, Store(l.o, c.o), code);
    ConvertedEmbeds(r.g, r.o, ElementOf(ty), elem, code);
    ElementEmbeds(l.g, o, ty, i, code);
    DefEmbeds(g, Gep(g.regs, target, Const(i)), code);
  }

  /** Storing to the elements of an array, one after the other. */
  lemma {:induction false} SimCells(m: Machine, g: Gen, target: Operand, a: Address, elem: Ty, o: Operand, ty: Ty,
      x: Value, size: nat, c: Config) returns (n: nat, d: Config)
    requires Stands(g, c) && Embeds(EmitCells(g, target, elem, o, ty, size), m.code)
    requires Fetch(c.regs, target) == Some(Ptr(a)) && Fetch(c.regs, o) == Some(x) && IsRvalue(x, ty)
    requires Below(target, g.regs) && Below(o, g.regs)
    ensures Moves(m, c, n, d, EmitCells(g, target, elem, o, ty, size), g.regs)
    ensures d.st == c.st.(mem := AssignCells(m.cx.ops, c.st.mem, a.slot, elem, x, ElementOf(ty), size))
    decreases size
  {
    hide Embeds, EmitDef, EmitElement, Converted, Emit, Moves, Stands, Run, Keep, Frame, ElementAt, IsRvalue;
    if size == 0 {
      MovesNot(m, c, g, g.regs);
      n, d := 0, c;
    } else {
      var before := EmitCells(g, target, elem, o, ty, size - 1);
      CellEmbeds(before, target, elem, o, ty, size - 1, m.code);
      FrameSelf(g);
      ThenCells(g, g, target, elem, o, ty, size - 1);
      var n1, c1 := SimCells(m, g, target, a, elem, o, ty, x, size - 1, c);
      MovesStands(m, c, n1, c1, before, g.regs);
      KeepFetch(target, c.regs, c1.regs, g.regs);
      KeepFetch(o, c.regs, c1.regs, g.regs);
      var n2;
      n2, d := SimCell(m, before, target, a, elem, o, ty, x, size - 1, c1);
      MovesOn(m, c, n1, c1, before, g.regs, n2, d, EmitCells(g, target, elem, o, ty, size), before.regs);
      n := n1 + n2;
    }
  }

  lemma SimCell(m: Machine, g: Gen, target: Operand, a: Address, elem: Ty, o: Operand, ty: Ty, x: Value, i: nat,
      c: Config) returns (n: nat, d: Config)
    requires var l := EmitDef(g, Gep(g.regs, target, Const(i)));
             var r := EmitElement(l.g, o, ty, i);
             var k := Converted(r.g, r.o, ElementOf(ty), elem);
             Embeds(Emit(k.g, Store(l.o, k.o)), m.code)
    requires Stands(g, c) && Fetch(c.regs, target) == Some(Ptr(a)) && Fetch(c.regs, o) == Some(x) && IsRvalue(x, ty)
    requires Below(target, g.regs) && Below(o, g.regs)
    ensures var l := EmitDef(g, Gep(g.regs, target, Const(i)));
            var r := EmitElement(l.g, o, ty, i);
            var k := Converted(r.g, r.o, ElementOf(ty), elem);
            Moves(m, c, n, d, Emit(k.g, Store(l.o, k.o)), g.regs)
    ensures d.st == c.st.(mem := c.st.mem[Address(a.slot, i) :=
                            Convert(m.cx.ops, ElementOf(ty), elem, ElementAt(c.st.mem, x, i))])
  {
    hide Embeds, EmitDef, EmitElement, Converted, Emit, Moves, Stands, Run, Keep, Frame, ElementAt, IsRvalue, Convert;
    CellEmbeds(g, target, elem, o, ty, i, m.code);
    var l := EmitDef(g, Gep(g.regs, target, Const(i)));
    var r := EmitElement(l.g, o, ty, i);
    var k := Converted(r.g, r.o, ElementOf(ty), elem);
    FrameSelf(g);
    ThenDefine(g, g, Gep(g.regs, target, Const(i)));
    ElementRegs(l.g, o, ty, i);
    ConvertedRegs(r.g, r.o, ElementOf(ty), elem);
    var c1 := StepDefine(m, g, Gep(g.regs, target, Const(i)), c, Ptr(Address(a.slot, i)));
    MovesStands(m, c, 1, c1, l.g, g.regs);
    KeepFetch(o, c.regs, c1.regs, g.regs);
    var n2, c2 := SimElement(m, l.g, o, ty, i, x, c1);
    MovesStands(m, c1, n2, c2, r.g, l.g.regs);
    KeepFetch(l.o, c1.regs, c2.regs, l.g.regs);
    var e := ElementAt(c.st.mem, x, i);
    var n3, c3 := SimConverted(m, r.g, r.o, ElementOf(ty), elem, e, c2);
    MovesStands(m, c2, n3, c3, k.g, r.g.regs);
    BelowMore(l.o, l.g.regs, r.g.regs);
    KeepFetch(l.o, c2.regs, c3.regs, r.g.regs);
    var st := c.st.(mem := c.st.mem[Address(a.slot, i) := Convert(m.cx.ops, ElementOf(ty), elem, e)]);
    d := StepNext(m, k.g, Store(l.o, k.o), c3, st);
    MovesOn(m, c, 1, c1, l.g, g.regs, n2, c2, r.g, l.g.regs);
    MovesOn(m, c, 1 + n2, c2, r.g, g.regs, n3, c3, k.g, r.g.regs);
    MovesOn(m, c, 1 + n2 + n3, c3, k.g, g.regs, 1, d, Emit(k.g, Store(l.o, k.o)), k.g.regs);
    n := 1 + n2 + n3 + 1;
  }

  /** Storing an operand through an lvalue. */
  lemma SimAssign(m: Machine, g: Gen, target: Val, xt: Value, o: Operand, ty: Ty, x: Value, c: Config)
    returns (n: nat, d: Config)
    requires Stands(g, c) && Holds(target, xt, c.regs) && Fetch(c.regs, o) == Some(x) && IsRvalue(x, ty)
    requires Below(target.o, g.regs) && Below(o, g.regs)
    requires var r := EmitAssign(g, target, o, ty); r.Some? && Embeds(r.value, m.code)
    ensures var r := EmitAssign(g, target, o, ty);
            && Moves(m, c, n, d, r.value, g.regs)
            && d.st == AssignTo(m.cx.ops, c.st, xt, target.ty, x, ty)
  {
    hide Embeds, Converted, EmitBinary, EmitCells, Emit, Moves, Stands, Run, Keep, BinaryValue, AssignCells, Promoted,
      PromotedValue;
    if target.ty.IsArray() {
      var from := Promotion(ty, target.ty);
      var p := Promoted(g, o, ty, from);
      var cells := EmitCells(p.g, target.o, target.ty.elem, p.o, from, target.ty.size);
      CellsEmbed(p.g, target.o, target.ty.elem, p.o, from, target.ty.size, m.code);
      var n1, c1 := SimPromoted(m, g, o, ty, from, x, c);
      MovesStands(m, c, n1, c1, p.g, g.regs);
      PromotedRegs(g, o, ty, from);
      KeepFetch(target.o, c.regs, c1.regs, g.regs);
      BelowMore(target.o, g.regs, p.g.regs);
      var k := PromotedValue(m.cx.ops, ty, from, x);
      var n2;
      n2, d := SimCells(m, p.g, target.o, xt.a, target.ty.elem, p.o, from, k, target.ty.size, c1);
      MovesOn(m, c, n1, c1, p.g, g.regs, n2, d, cells, p.g.regs);
      n := n1 + n2;
    } else {
      n, d := SimAssignScalar(m, g, target, xt, o, ty, x.n, c);
    }
  }

  lemma SimAssignScalar(m: Machine, g: Gen, target: Val, xt: Value, o: Operand, ty: Ty, k: int, c: Config)
    returns (n: nat, d: Config)
    requires !target.ty.IsArray() && ty.IsScalar()
    requires Stands(g, c) && Holds(target, xt, c.regs) && Fetch(c.regs, o) == Some(Num(k))
    requires Below(target.o, g.regs) && Below(o, g.regs)
    requires var r := EmitAssign(g, target, o, ty); r.Some? && Embeds(r.value, m.code)
    ensures var r := EmitAssign(g, target, o, ty);
            && Moves(m, c, n, d, r.value, g.regs)
            && d.st == Write(c.st, xt, AssignedValue(m.cx.ops, target.ty, ty, k))
  {
    hide Embeds, Converted, EmitBinary, Emit, Moves, Stands, Run, Keep, BinaryResult, BinaryValue, Execute, Holds,
      Write;
    var v := AssignedValue(m.cx.ops, target.ty, ty, k);
    if target.ty == Bool {
      var zero := Val(Const(0), Int32, false);
      var rhs := Val(o, ty, false);
      var r := EmitBinary(g, NotEquals, zero, rhs);
      EmitEmbeds(r.g, Store(target.o, r.v.o), m.code);
      var n1, c1 := SimCompare(m, g, zero, 0, rhs, k, c);
      MovesStands(m, c, n1, c1, r.g, g.regs);
      KeepHolds(target, xt, c.regs, c1.regs, g.regs);
      d := StepStore(m, r.g, target, xt, r.v.o, v, c1);
      FrameSelf(g);
      ThenBinary(g, g, NotEquals, zero, rhs);
      MovesOn(m, c, n1, c1, r.g, g.regs, 1, d, Emit(r.g, Store(target.o, r.v.o)), r.g.regs);
      n := n1 + 1;
    } else {
      var r := Converted(g, o, ty, target.ty);
      EmitEmbeds(r.g, Store(target.o, r.o), m.code);
      var n1, c1 := SimConverted(m, g, o, ty, target.ty, k, c);
      MovesStands(m, c, n1, c1, r.g, g.regs);
      KeepHolds(target, xt, c.regs, c1.regs, g.regs);
      d := StepStore(m, r.g, target, xt, r.o, v, c1);
      ConvertedRegs(g, o, ty, target.ty);
      MovesOn(m, c, n1, c1, r.g, g.regs, 1, d, Emit(r.g, Store(target.o, r.o)), r.g.regs);
      n := n1 + 1;
    }
  }

  /** Store a number through a variable. */
  lemma StepStore(m: Machine, g: Gen, target: Val, xt: Value, o: Operand, k: int, c: Config) returns (d: Config)
    requires Stands(g, c) && Holds(target, xt, c.regs) && target.ptr && !target.ty.IsArray()
    requires Fetch(c.regs, o) == Some(Num(k)) && Embeds(Emit(g, Store(target.o, o)), m.code)
    ensures Moves(m, c, 1, d, Emit(g, Store(target.o, o)), g.regs) && d.st == Write(c.st, xt, k)
  {
    hide Embeds, Emit, Moves, Stands;
    d := StepNext(m, g, Store(target.o, o), c, Write(c.st, xt, k));
  }

  /** Compare two loaded scalars. */
  lemma SimCompare(m: Machine, g: Gen, a: Val, j: int, b: Val, k: int, c: Config) returns (n: nat, d: Config)
    requires Stands(g, c) && Fetch(c.regs, a.o) == Some(Num(j)) && Fetch(c.regs, b.o) == Some(Num(k))
    requires a.ty.IsScalar() && b.ty.IsScalar() && !a.ptr && !b.ptr && Below(a.o, g.regs) && Below(b.o, g.regs)
    requires var r := EmitBinary(g, NotEquals, a, b); r.Made? && Embeds(r.g, m.code)
    ensures var r := EmitBinary(g, NotEquals, a, b);
            && Moves(m, c, n, d, r.g, g.regs) && d.st == c.st
            && Fetch(d.regs, r.v.o) == Some(Num(BinaryValue(m.cx.ops, NotEquals, a.ty, j, b.ty, k)))
  {
    hide Embeds, Moves, Stands, EmitBinary, BinaryValue;
    n, d := SimBinary(m, g, NotEquals, a, Num(j), b, Num(k), c);
  }

  // ---------------------------------------------------------------------------------------
  // Calls

  ghost predicate HoldAll(vs: seq<Val>, xs: seq<Value>, regs: Registers, k: nat) {
    && |vs| == |xs|
    && forall i | 0 <= i < |vs| :: Holds(vs[i], xs[i], regs) && vs[i].ty != Void && Below(vs[i].o, k)
  }

  ghost predicate HoldValues(os: seq<Operand>, xs: seq<Value>, regs: Registers) {
    |os| == |xs| && forall i | 0 <= i < |os| :: Fetch(regs, os[i]) == Some(xs[i])
  }

  lemma LoadAllEmbeds(g: Gen, vs: seq<Val>, code: seq<BasicBlock>)
    requires Embeds(LoadAll(g, vs).g, code)
    ensures Embeds(g, code)
    decreases |vs|
  {
    hide Embeds, Taken;
    if |vs| > 0 {
      var v := vs[|vs| - 1];
      LoadAllEmbeds(Taken(g, v).g, vs[..|vs| - 1], code);
      TakenEmbeds(g, v, code);
    }
  }

  lemma {:induction false} CastCellsEmbed(g: Gen, o: Operand, from: Ty, to: Ty, size: nat, code: seq<BasicBlock>)
    requires Embeds(EmitCastCells(g, o, from, to, size).g, code)
    ensures Embeds(g, code)
    decreases size
  {
    hide Embeds, EmitDef;
    if size > 0 {
      var es := EmitCastCells(g, o, from, to, size - 1);
      var l := EmitDef(es.g, Element(es.g.regs, o, size - 1));
      DefEmbeds(l.g, Conv(l.g.regs, from, to, l.o), code);
      DefEmbeds(es.g, Element(es.g.regs, o, size - 1), code);
      CastCellsEmbed(g, o, from, to, size - 1, code);
    }
  }

  lemma ArrayCastEmbeds(g: Gen, o: Operand, from: Ty, to: Ty, size: nat, code: seq<BasicBlock>)
    requires Embeds(EmitArrayCast(g, o, from, to, size).g, code)
    ensures Embeds(g, code)
  {
    hide Embeds, EmitDef, EmitCastCells;
    if from != to {
      var es := EmitCastCells(g, o, from, to, size);
      DefEmbeds(es.g, Pack(es.g.regs, es.os), code);
      CastCellsEmbed(g, o, from, to, size, code);
    }
  }

  lemma ArgEmbeds(g: Gen, to: ArgTy, from: ArgTy, o: Operand, code: seq<BasicBlock>)
    requires Embeds(EmitArg(g, to, from, o).g, code)
    ensures Embeds(g, code)
  {
    hide Embeds, EmitArrayCast, CastTo;
    if !from.Pointer? { CastToEmbeds(g, o, ElementType(from), ElementType(to), code); }
    else {
      ArrayCastEmbeds(g, o, ElementOf(ElementType(from)), ElementOf(ElementType(to)), SizeBehind(from), code);
    }
  }

  lemma {:induction false} SimCastCells(m: Machine, g: Gen, o: Operand, x: Value, from: Ty, to: Ty, size: nat,
                                        c: Config)
    returns (n: nat, d: Config)
    requires from != to && Stands(g, c) && Embeds(EmitCastCells(g, o, from, to, size).g, m.code)
    requires Fetch(c.regs, o) == Some(x) && !x.Num? && Below(o, g.regs)
    ensures var es := EmitCastCells(g, o, from, to, size);
            && Moves(m, c, n, d, es.g, g.regs) && d.st == c.st
            && HoldNums(es.os, CastCells(m.cx.ops, from, to, c.st.mem, x, size), d.regs)
    decreases size
  {
    hide Embeds, EmitDef, Moves, Stands, Run, Keep, HoldNums, Frame, ElementAt;
    if size == 0 {
      MovesNot(m, c, g, g.regs);
      NoNums(c.regs);
      n, d := 0, c;
    } else {
      var es := EmitCastCells(g, o, from, to, size - 1);
      var i := Element(es.g.regs, o, size - 1);
      var l := EmitDef(es.g, i);
      DefEmbeds(l.g, Conv(l.g.regs, from, to, l.o), m.code);
      DefEmbeds(es.g, i, m.code);
      FrameSelf(g);
      ThenCastCells(g, g, o, from, to, size - 1);
      var n1, c1 := SimCastCells(m, g, o, x, from, to, size - 1, c);
      MovesStands(m, c, n1, c1, es.g, g.regs);
      KeepFetch(o, c.regs, c1.regs, g.regs);
      var k := ElementAt(c.st.mem, x, size - 1);
      var ks := CastCells(m.cx.ops, from, to, c.st.mem, x, size - 1);
      n, d := SimCastCell(m, es.g, o, x, from, to, size - 1, es.os, ks, c1);
      MovesOn(m, c, n1, c1, es.g, g.regs, n, d, EmitDef(l.g, Conv(l.g.regs, from, to, l.o)).g, es.g.regs);
      n := n1 + n;
    }
  }

  /** One more element is loaded and converted. */
  lemma SimCastCell(m: Machine, g: Gen, o: Operand, x: Value, from: Ty, to: Ty, i: nat, os: seq<Operand>,
                    ks: seq<int>, c: Config)
    returns (n: nat, d: Config)
    requires from != to && Stands(g, c) && Fetch(c.regs, o) == Some(x) && !x.Num?
    requires HoldNums(os, ks, c.regs) && AllBelow(os, g.regs)
    requires var l := EmitDef(g, Element(g.regs, o, i));
             var e := EmitDef(l.g, Conv(l.g.regs, from, to, l.o)); Embeds(l.g, m.code) && Embeds(e.g, m.code)
    ensures var l := EmitDef(g, Element(g.regs, o, i));
            var e := EmitDef(l.g, Conv(l.g.regs, from, to, l.o));
            && Moves(m, c, n, d, e.g, g.regs) && d.st == c.st
            && HoldNums(os + [e.o], ks + [Convert(m.cx.ops, from, to, ElementAt(c.st.mem, x, i))], d.regs)
  {
    hide Embeds, Moves, Stands, Run, Keep, HoldNums, ElementAt;
    var k := ElementAt(c.st.mem, x, i);
    var load := Element(g.regs, o, i);
    var l := EmitDef(g, load);
    var conv := Conv(l.g.regs, from, to, l.o);
    var e := EmitDef(l.g, conv);
    var c1 := StepDefine(m, g, load, c, Num(k));
    MovesStands(m, c, 1, c1, l.g, g.regs);
    d := StepDefine(m, l.g, conv, c1, Num(m.cx.ops.conv(from, to, k)));
    MovesOn(m, c, 1, c1, l.g, g.regs, 1, d, e.g, l.g.regs);
    n := 2;
    MovesStands(m, c, n, d, e.g, g.regs);
    KeepNums(os, ks, c.regs, d.regs, g.regs);
    OneMoreNum(os, ks, e.o, Convert(m.cx.ops, from, to, k), d.regs);
  }

  lemma SimArrayCast(m: Machine, g: Gen, o: Operand, x: Value, from: Ty, to: Ty, size: nat, c: Config)
    returns (n: nat, d: Config)
    requires Stands(g, c) && Embeds(EmitArrayCast(g, o, from, to, size).g, m.code)
    requires Fetch(c.regs, o) == Some(x) && !x.Num? && Below(o, g.regs)
    ensures var e := EmitArrayCast(g, o, from, to, size);
            && Moves(m, c, n, d, e.g, g.regs) && d.st == c.st
            && Fetch(d.regs, e.o) == Some(CastArray(m.cx.ops, from, to, x, c.st.mem, size))
  {
    hide Embeds, EmitDef, Moves, Stands, Run, Keep, HoldNums, Frame, CastCells, EmitCastCells;
    if from == to {
      MovesNot(m, c, g, g.regs);
      n, d := 0, c;
    } else {
      var es := EmitCastCells(g, o, from, to, size);
      var i := Pack(es.g.regs, es.os);
      DefEmbeds(es.g, i, m.code);
      FrameSelf(g);
      ThenCastCells(g, g, o, from, to, size);
      var n1, c1 := SimCastCells(m, g, o, x, from, to, size, c);
      MovesStands(m, c, n1, c1, es.g, g.regs);
      d := SimPack(m, es.g, es.os, CastCells(m.cx.ops, from, to, c.st.mem, x, size), c1);
      MovesOn(m, c, n1, c1, es.g, g.regs, 1, d, EmitDef(es.g, i).g, es.g.regs);
      n := n1 + 1;
    }
  }

  lemma SimArg(m: Machine, g: Gen, to: ArgTy, from: ArgTy, o: Operand, x: Value, c: Config) returns (n: nat, d: Config)
    requires Stands(g, c) && Embeds(EmitArg(g, to, from, o).g, m.code)
    requires Fetch(c.regs, o) == Some(x) && (x.Num? <==> !from.Pointer?) && Below(o, g.regs)
    ensures var e := EmitArg(g, to, from, o);
            && Moves(m, c, n, d, e.g, g.regs) && d.st == c.st && g.regs <= e.g.regs && Below(e.o, e.g.regs)
            && Fetch(d.regs, e.o) == Some(CastArg(m.cx.ops, to, from, x, c.st.mem))
  {
    hide Embeds, Moves, EmitArrayCast, CastTo, CastValue, CastArray, Stands, Frame;
    FrameSelf(g);
    ThenArg(g, g, to, from, o);
    if !from.Pointer? {
      n, d := SimCastTo(m, g, o, ElementType(from), ElementType(to), x.n, c);
    } else {
      n, d := SimArrayCast(m, g, o, x, ElementOf(ElementType(from)), ElementOf(ElementType(to)), SizeBehind(from), c);
    }
  }

  lemma CastAllEmbeds(g: Gen, params: seq<Parameter>, ts: seq<ArgTy>, os: seq<Operand>, code: seq<BasicBlock>)
    requires |params| == |ts| == |os|
    requires Embeds(CastAll(g, params, ts, os).g, code)
    ensures Embeds(g, code)
    decreases |os|
  {
    hide Embeds, EmitArg;
    if |os| > 0 {
      var x := EmitArg(g, params[0].ty, ts[0], os[0]);
      CastAllEmbeds(x.g, params[1..], ts[1..], os[1..], code);
      ArgEmbeds(g, params[0].ty, ts[0], os[0], code);
    }
  }

  lemma KeepAll(vs: seq<Val>, xs: seq<Value>, before: Registers, after: Registers, k: nat, l: nat)
    requires HoldAll(vs, xs, before, k) && Keep(before, after, k) && k <= l
    ensures HoldAll(vs, xs, after, l)
  {
    forall i | 0 <= i < |vs| ensures Holds(vs[i], xs[i], after) && Below(vs[i].o, l) {
      KeepHolds(vs[i], xs[i], before, after, k);
    }
  }

  lemma KeepValues(os: seq<Operand>, xs: seq<Value>, before: Registers, after: Registers, k: nat)
    requires HoldValues(os, xs, before) && Keep(before, after, k) && AllBelow(os, k)
    ensures HoldValues(os, xs, after)
  {
    forall i | 0 <= i < |os| ensures Fetch(after, os[i]) == Some(xs[i]) {
      KeepFetch(os[i], before, after, k);
    }
  }

  lemma ArgElement(ty: Ty)
    ensures ElementType(ArgType(ty)) == ty && (ArgType(ty).Pointer? <==> ty.IsArray())
  {
  }

  lemma SimLoadAll(m: Machine, g: Gen, vs: seq<Val>, xs: seq<Value>, c: Config) returns (n: nat, d: Config)
    requires Stands(g, c) && HoldAll(vs, xs, c.regs, g.regs) && Embeds(LoadAll(g, vs).g, m.code)
    ensures Moves(m, c, n, d, LoadAll(g, vs).g, g.regs) && d.st == c.st
    ensures HoldValues(LoadAll(g, vs).os, Rvalues(c.st, xs, ArgTypes(vs)), d.regs)
    decreases |vs|
  {
    hide Embeds, Taken, Moves, Stands, Keep, Rvalue;
    if |vs| == 0 {
      MovesNot(m, c, g, g.regs);
      n, d := 0, c;
    } else {
      var last := |vs| - 1;
      var x := Taken(g, vs[last]);
      TakenRegs(g, vs[last]);
      LoadAllEmbeds(x.g, vs[..last], m.code);
      var n1, c1 := SimTaken(m, g, vs[last], xs[last], c);
      MovesStands(m, c, n1, c1, x.g, g.regs);
      KeepAll(vs, xs, c.regs, c1.regs, g.regs, x.g.regs);
      var n2;
      n2, d := SimLoadAll(m, x.g, vs[..last], xs[..last], c1);
      MovesStands(m, c1, n2, d, LoadAll(g, vs).g, x.g.regs);
      KeepFetch(x.o, c1.regs, d.regs, x.g.regs);
      MovesOn(m, c, n1, c1, x.g, g.regs, n2, d, LoadAll(g, vs).g, x.g.regs);
      n := n1 + n2;
      ArgElement(vs[last].ty);
      assert Rvalues(c.st, xs, ArgTypes(vs)) ==
             Rvalues(c.st, xs[..last], ArgTypes(vs[..last])) + [Rvalue(c.st, xs[last], vs[last].ty)];
    }
  }

  lemma {:induction false} ConvertAllEmbeds(g: Gen, ts: seq<Ty>, to: Ty, os: seq<Operand>, code: seq<BasicBlock>)
    requires |ts| == |os| && Embeds(ConvertAll(g, ts, to, os).g, code)
    ensures Embeds(g, code)
    decreases |os|
  {
    hide Embeds, Converted;
    if |os| > 0 {
      var n := |os| - 1;
      ConvertedEmbeds(ConvertAll(g, ts[..n], to, os[..n]).g, os[n], ts[n], to, code);
      ConvertAllEmbeds(g, ts[..n], to, os[..n], code);
    }
  }

  lemma {:induction false} SimConvertAll(m: Machine, g: Gen, ts: seq<Ty>, to: Ty, os: seq<Operand>, ks: seq<int>,
      c: Config) returns (n: nat, d: Config)
    requires |ts| == |os| && Stands(g, c) && Embeds(ConvertAll(g, ts, to, os).g, m.code)
    requires HoldNums(os, ks, c.regs) && AllBelow(os, g.regs)
    ensures var es := ConvertAll(g, ts, to, os);
            && Moves(m, c, n, d, es.g, g.regs) && d.st == c.st
            && HoldNums(es.os, ConvertEach(m.cx.ops, ts, to, ks), d.regs)
    decreases |os|
  {
    hide Embeds, Converted, Moves, Stands, Run, Keep, Frame, Convert;
    if |os| == 0 {
      MovesNot(m, c, g, g.regs);
      n, d := 0, c;
    } else {
      var last := |os| - 1;
      var es := ConvertAll(g, ts[..last], to, os[..last]);
      var e := Converted(es.g, os[last], ts[last], to);
      ConvertedEmbeds(es.g, os[last], ts[last], to, m.code);
      FrameSelf(g);
      ThenConvertAll(g, g, ts[..last], to, os[..last]);
      var n1, c1 := SimConvertAll(m, g, ts[..last], to, os[..last], ks[..last], c);
      MovesStands(m, c, n1, c1, es.g, g.regs);
      KeepFetch(os[last], c.regs, c1.regs, g.regs);
      var n2;
      n2, d := SimConverted(m, es.g, os[last], ts[last], to, ks[last], c1);
      MovesStands(m, c1, n2, d, e.g, es.g.regs);
      MovesOn(m, c, n1, c1, es.g, g.regs, n2, d, e.g, es.g.regs);
      n := n1 + n2;
      var before := ConvertEach(m.cx.ops, ts[..last], to, ks[..last]);
      KeepNums(es.os, before, c1.regs, d.regs, es.g.regs);
      OneMoreNum(es.os, before, e.o, Convert(m.cx.ops, ts[last], to, ks[last]), d.regs);
    }
  }

  lemma ScalarsHeld(vs: seq<Val>, xs: seq<Value>, os: seq<Operand>, regs: Registers, st: State)
    requires ScalarVals(vs) && |vs| == |xs| && HoldValues(os, Rvalues(st, xs, ArgTypes(vs)), regs)
    ensures HoldNums(os, ReadEach(st, xs), regs)
  {
    forall i | 0 <= i < |os| ensures Fetch(regs, os[i]) == Some(Num(Read(st, xs[i]))) {
      assert vs[i] in vs;
      ArgElement(vs[i].ty);
      ScalarRvalue(st, xs[i], vs[i].ty);
    }
  }

  /** A pack: all values are loaded, then converted to one type, then packed. */
  lemma SimEmitPack(m: Machine, g: Gen, vs: seq<Val>, xs: seq<Value>, c: Config) returns (n: nat, d: Config)
    requires ScalarVals(vs) && Stands(g, c) && HoldAll(vs, xs, c.regs, g.regs)
    requires Embeds(EmitPack(g, vs).g, m.code)
    ensures var e := EmitPack(g, vs);
            && Moves(m, c, n, d, e.g, g.regs) && d.st == c.st
            && Fetch(d.regs, e.v.o) ==
               Some(Arr(ConvertEach(m.cx.ops, ValTypes(vs), PackType(ValTypes(vs)), ReadEach(c.st, xs))))
  {
    hide Embeds, LoadAll, ConvertAll, EmitDef, Moves, Stands, Keep, HoldNums, HoldValues, Frame, ConvertEach;
    var ts := ValTypes(vs);
    var x := LoadAll(g, vs);
    var y := ConvertAll(x.g, ts, PackType(ts), x.os);
    var ks := ReadEach(c.st, xs);
    DefEmbeds(y.g, Pack(y.g.regs, y.os), m.code);
    ConvertAllEmbeds(x.g, ts, PackType(ts), x.os, m.code);
    FrameSelf(g);
    ThenLoadAll(g, g, vs);
    FrameSelf(x.g);
    ThenConvertAll(x.g, x.g, ts, PackType(ts), x.os);
    var n1, c1 := SimLoadAll(m, g, vs, xs, c);
    MovesStands(m, c, n1, c1, x.g, g.regs);
    ScalarsHeld(vs, xs, x.os, c1.regs, c.st);
    var n2, c2 := SimConvertAll(m, x.g, ts, PackType(ts), x.os, ks, c1);
    MovesStands(m, c1, n2, c2, y.g, x.g.regs);
    d := SimPack(m, y.g, y.os, ConvertEach(m.cx.ops, ts, PackType(ts), ks), c2);
    MovesOn(m, c, n1, c1, x.g, g.regs, n2, c2, y.g, x.g.regs);
    MovesOn(m, c, n1 + n2, c2, y.g, g.regs, 1, d, EmitDef(y.g, Pack(y.g.regs, y.os)).g, y.g.regs);
    n := n1 + n2 + 1;
  }

  /** Arguments passed by value are numbers. */
  predicate AreRvalues(ts: seq<ArgTy>, xs: seq<Value>) {
    |ts| == |xs| && forall i | 0 <= i < |ts| :: xs[i].Num? <==> !ts[i].Pointer?
  }

  lemma SimCastAll(m: Machine, g: Gen, params: seq<Parameter>, ts: seq<ArgTy>, os: seq<Operand>, xs: seq<Value>,
      c: Config)
    returns (n: nat, d: Config)
    requires |params| == |ts| == |os| && AreRvalues(ts, xs)
    requires Stands(g, c) && HoldValues(os, xs, c.regs) && AllBelow(os, g.regs)
    requires Embeds(CastAll(g, params, ts, os).g, m.code)
    ensures var e := CastAll(g, params, ts, os);
            && Moves(m, c, n, d, e.g, g.regs) && d.st == c.st
            && HoldValues(e.os, CastArgs(m.cx.ops, true, params, ts, xs, c.st.mem), d.regs)
    decreases |os|
  {
    hide Embeds, EmitArg, Moves, Stands, Keep, CastArg;
    if |os| == 0 {
      MovesNot(m, c, g, g.regs);
      n, d := 0, c;
    } else {
      var x := EmitArg(g, params[0].ty, ts[0], os[0]);
      var e := CastAll(g, params, ts, os);
      CastAllEmbeds(x.g, params[1..], ts[1..], os[1..], m.code);
      var n1, c1 := SimArg(m, g, params[0].ty, ts[0], os[0], xs[0], c);
      MovesStands(m, c, n1, c1, x.g, g.regs);
      KeepValues(os, xs, c.regs, c1.regs, g.regs);
      MoreBelow(os, g.regs, x.g.regs);
      var n2;
      n2, d := SimCastAll(m, x.g, params[1..], ts[1..], os[1..], xs[1..], c1);
      MovesStands(m, c1, n2, d, e.g, x.g.regs);
      KeepFetch(x.o, c1.regs, d.regs, x.g.regs);
      MovesOn(m, c, n1, c1, x.g, g.regs, n2, d, e.g, x.g.regs);
      n := n1 + n2;
    }
  }

  lemma MoreBelow(os: seq<Operand>, k: nat, l: nat)
    requires AllBelow(os, k) && k <= l
    ensures AllBelow(os, l)
  {
  }

  lemma NoCast(ops: Ops, params: seq<Parameter>, ts: seq<ArgTy>, xs: seq<Value>, mem: Memory)
    requires |params| == |ts| == |xs|
    ensures CastArgs(ops, false, params, ts, xs, mem) == xs
  {
  }

  lemma SimEmitCall(m: Machine, group: seq<Signature>, g: Gen, vs: seq<Val>, xs: seq<Value>, c: Config)
    returns (n: nat, d: Config)
    requires Stands(g, c) && HoldAll(vs, xs, c.regs, g.regs)
    requires var r := EmitCall(group, g, vs); r.Made? && Embeds(r.g, m.code)
    ensures var e := EmitCall(group, g, vs);
            var r := Resolve(group, ArgTypes(vs));
            r.target.Some? && |r.target.value.params| == |vs| &&
            var xs1 := CastArgs(m.cx.ops, r.kind == Implicit, r.target.value.params, ArgTypes(vs),
                                Rvalues(c.st, xs, ArgTypes(vs)), c.st.mem);
            var effect := CallEffect(m.cx.ops, r.target.value, xs1, c.st);
            Moves(m, c, n, d, e.g, g.regs) && d.st == effect.st && Fetch(d.regs, e.v.o) == Some(effect.v)
  {
    hide Embeds, LoadAll, CastAll, EmitDef, Moves, Stands, Keep, Resolve, CallEffect;
    var ts := ArgTypes(vs);
    var r := Resolve(group, ts);
    ResolveFits(group, ts);
    var params := r.target.value.params;
    var ks := Rvalues(c.st, xs, ts);
    AllRvalues(vs, xs, c.regs, g.regs, c.st);
    var x := LoadAll(g, vs);
    FrameSelf(g);
    ThenLoadAll(g, g, vs);
    var y := if r.kind == Implicit then CastAll(x.g, params, ts, x.os) else x;
    var i := Invoke(y.g.regs, r.target.value, y.os);
    DefEmbeds(y.g, i, m.code);
    if r.kind == Implicit { CastAllEmbeds(x.g, params, ts, x.os, m.code); }
    var n1, c1 := SimLoadAll(m, g, vs, xs, c);
    MovesStands(m, c, n1, c1, x.g, g.regs);
    var n2, c2 := 0, c1;
    if r.kind == Implicit {
      n2, c2 := SimCastAll(m, x.g, params, ts, x.os, ks, c1);
      FrameSelf(x.g);
      ThenCastAll(x.g, x.g, params, ts, x.os);
    } else {
      NoCast(m.cx.ops, params, ts, ks, c.st.mem);
      MovesNot(m, c1, x.g, x.g.regs);
    }
    MovesStands(m, c1, n2, c2, y.g, x.g.regs);
    var ks' := CastArgs(m.cx.ops, r.kind == Implicit, params, ts, ks, c.st.mem);
    d := SimInvoke(m, y.g, r.target.value, y.os, ks', c2);
    MovesOn(m, c, n1, c1, x.g, g.regs, n2, c2, y.g, x.g.regs);
    MovesOn(m, c, n1 + n2, c2, y.g, g.regs, 1, d, EmitDef(y.g, i).g, y.g.regs);
    n := n1 + n2 + 1;
  }

  lemma AllRvalues(vs: seq<Val>, xs: seq<Value>, regs: Registers, k: nat, st: State)
    requires HoldAll(vs, xs, regs, k)
    ensures AreRvalues(ArgTypes(vs), Rvalues(st, xs, ArgTypes(vs)))
  {
    var ts := ArgTypes(vs);
    forall i | 0 <= i < |vs| ensures Rvalues(st, xs, ts)[i].Num? <==> !ts[i].Pointer? {
      ArgElement(vs[i].ty);
      HeldIsRvalue(vs[i], xs[i], regs, st);
    }
  }

  lemma SimInvoke(m: Machine, g: Gen, sig: Signature, os: seq<Operand>, xs: seq<Value>, c: Config) returns (d: Config)
    requires Stands(g, c) && HoldValues(os, xs, c.regs) && |sig.params| == |xs|
    requires Embeds(EmitDef(g, Invoke(g.regs, sig, os)).g, m.code)
    ensures var e := EmitDef(g, Invoke(g.regs, sig, os));
            var effect := CallEffect(m.cx.ops, sig, xs, c.st);
            Moves(m, c, 1, d, e.g, g.regs) && d.st == effect.st && Fetch(d.regs, e.o) == Some(effect.v)
  {
    hide Embeds, CallEffect;
    var i := Invoke(g.regs, sig, os);
    var effect := CallEffect(m.cx.ops, sig, xs, c.st);
    assert ValuesOf(c.regs, os) == xs;
    d := Define(c.(st := effect.st), g.regs, effect.v).c;
    EmbedsSame(Emit(g, i), EmitDef(g, i).g, m.code);
    StepEmitted(m, g, i, c);
    RunOne(m, c, d);
  }
}
