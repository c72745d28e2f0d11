/**
Which slots generated code can store to. The registers that may point to the slot of an attribute are
tracked while code is generated; no instruction stores through one of them unless the attribute is
flagged as written. So the slot of an attribute that is not flagged keeps its contents at every step
of every run of the generated function, whether or not the run ends.
*/
module StoreTargets {
  import opened Types
  import opened Ast
  import opened Overloads
  import opened Semantics
  import opened Cfg
  import opened Lowering
  import opened Frames
  import opened InstrSimulation
  import opened Preservation
  import opened CfgShape
  import opened WellFormed
  import opened Writes
  import opened Uses

  /** An operand that may hold a pointer to the slot, when the registers `t` are those that may. */
  predicate Points(o: Operand, t: set<nat>, slot: nat) {
    o == Slot(slot) || (o.Reg? && o.r in t)
  }

  /** An address that is passed on is passed to a register of `t`, no store goes through it, and no function
      is called with it. The addresses are in the first k registers. */
  predicate Guarded(i: Instr, t: set<nat>, slot: nat, k: nat) {
    match i
    case Store(a, _) => Below(a, k) && !Points(a, t, slot)
    case Gep(dst, b, _) => Below(b, k) && (Points(b, t, slot) ==> dst in t)
    case Phi(dst, arms) =>
      forall j | 0 <= j < |arms| :: Below(arms[j].val, k) && (Points(arms[j].val, t, slot) ==> dst in t)
    case Invoke(_, _, args) => forall j | 0 <= j < |args| :: Below(args[j], k) && !Points(args[j], t, slot)
    case GetAttribute(_, s, _) => s != slot
    case _ => true
  }

  /** All code generated since s is guarded. */
  ghost predicate Safe(s: Gen, h: Gen, t: set<nat>, slot: nat) {
    && (forall r | r in t :: r < h.regs)
    && (forall b, k | 0 <= b < |h.blocks| && 0 <= k < |Code(h, b)| && Since(s, b, k) ::
          Guarded(Code(h, b)[k], t, slot, h.regs))
  }

  /** A position behind the code that s begins with. */
  predicate Since(s: Gen, b: nat, k: nat) {
    |s.blocks| <= b || (b == s.ip && |Code(s, s.ip)| <= k)
  }

  /** The registers that were added are younger than the first k. */
  ghost predicate Adds(t: set<nat>, k: nat, t1: set<nat>) {
    t <= t1 && forall r | r in t1 && r !in t :: k <= r
  }

  lemma GuardedStays(i: Instr, t: set<nat>, slot: nat, k: nat, t1: set<nat>, k1: nat)
    requires Guarded(i, t, slot, k) && Adds(t, k, t1) && k <= k1
    ensures Guarded(i, t1, slot, k1)
  {
  }

  lemma PointsStays(o: Operand, t: set<nat>, slot: nat, k: nat, t1: set<nat>)
    requires Below(o, k) && Adds(t, k, t1)
    ensures Points(o, t1, slot) <==> Points(o, t, slot)
  {
  }

  lemma AddsTrans(t: set<nat>, k: nat, t1: set<nat>, k1: nat, t2: set<nat>)
    requires Adds(t, k, t1) && Adds(t1, k1, t2) && k <= k1
    ensures Adds(t, k, t2)
  {
  }

  lemma SafeMore(s: Gen, h: Gen, t: set<nat>, slot: nat, t1: set<nat>, k1: nat)
    requires Safe(s, h, t, slot) && Adds(t, h.regs, t1) && h.regs <= k1 && forall r | r in t1 :: r < k1
    ensures Safe(s, h.(regs := k1), t1, slot)
  {
    hide Guarded;
    var h1: Gen := h.(regs := k1);
    forall b, k | 0 <= b < |h1.blocks| && 0 <= k < |Code(h1, b)| && Since(s, b, k)
      ensures Guarded(Code(h1, b)[k], t1, slot, k1)
    {
      GuardedStays(Code(h, b)[k], t, slot, h.regs, t1, k1);
    }
  }

  lemma SafeEmit(s: Gen, h: Gen, t: set<nat>, slot: nat, i: Instr)
    requires Safe(s, h, t, slot) && Guarded(i, t, slot, h.regs)
    ensures Safe(s, Emit(h, i), t, slot)
  {
    hide Guarded;
  }

  lemma SafeBlock(s: Gen, h: Gen, t: set<nat>, slot: nat, tag: Label)
    requires Safe(s, h, t, slot)
    ensures Safe(s, NewBlock(h, tag), t, slot)
  {
    hide Guarded;
  }

  lemma SafeAt(s: Gen, h: Gen, t: set<nat>, slot: nat, b: nat)
    requires Safe(s, h, t, slot) && b < |h.blocks|
    ensures Safe(s, At(h, b), t, slot)
  {
    hide Guarded;
  }

  /** Instructions that compute numbers and new arrays. */
  predicate Computes(i: Instr) {
    i.Load? || i.Element? || i.Pack? || i.Product? || i.Arith? || i.Negate? || i.Conv? || i.Test?
  }

  /** What is computed next is not a pointer. */
  lemma SafeCompute(s: Gen, h: Gen, t: set<nat>, slot: nat, i: Instr)
    requires Safe(s, h, t, slot) && Computes(i)
    ensures var e := EmitDef(h, i); Safe(s, e.g, t, slot) && !Points(e.o, t, slot)
  {
    hide Guarded, Safe;
    assert Guarded(i, t, slot, h.regs) by { ComputesGuarded(i, t, slot, h.regs); }
    SafeEmit(s, h, t, slot, i);
    AddsNothing(t, h.regs);
    Bounded(s, h, t, slot);
    SafeMore(s, Emit(h, i), t, slot, t, h.regs + 1);
  }

  /** Nor is the result of a call, which must not be given a pointer to the slot. */
  lemma SafeInvoke(s: Gen, h: Gen, t: set<nat>, slot: nat, sig: Signature, os: seq<Operand>)
    requires Safe(s, h, t, slot) && AllBelow(os, h.regs) && NonePoints(os, t, slot)
    ensures var e := EmitDef(h, Invoke(h.regs, sig, os)); Safe(s, e.g, t, slot) && !Points(e.o, t, slot)
  {
    hide Safe;
    var i := Invoke(h.regs, sig, os);
    SafeEmit(s, h, t, slot, i);
    AddsNothing(t, h.regs);
    Bounded(s, h, t, slot);
    SafeMore(s, Emit(h, i), t, slot, t, h.regs + 1);
  }

  predicate NonePoints(os: seq<Operand>, t: set<nat>, slot: nat) {
    forall i | 0 <= i < |os| :: !Points(os[i], t, slot)
  }

  lemma ComputesGuarded(i: Instr, t: set<nat>, slot: nat, k: nat)
    requires Computes(i)
    ensures Guarded(i, t, slot, k)
  {
  }

  lemma AddsNothing(t: set<nat>, k: nat)
    ensures Adds(t, k, t)
  {
  }

  lemma Bounded(s: Gen, h: Gen, t: set<nat>, slot: nat)
    requires Safe(s, h, t, slot)
    ensures forall r | r in t :: r < h.regs
  {
  }

  lemma SafeLoad(s: Gen, h: Gen, t: set<nat>, slot: nat, v: Val)
    requires Safe(s, h, t, slot)
    ensures var e := Loaded(h, v); Safe(s, e.g, t, slot) && (Points(e.o, t, slot) ==> Points(v.o, t, slot))
  {
    hide Safe, EmitDef;
    SafeCompute(s, h, t, slot, Load(h.regs, v.o));
  }

  lemma SafeConvert(s: Gen, h: Gen, t: set<nat>, slot: nat, o: Operand, from: Ty, to: Ty)
    requires Safe(s, h, t, slot)
    ensures var e := Converted(h, o, from, to); Safe(s, e.g, t, slot) && (Points(e.o, t, slot) ==> Points(o, t, slot))
  {
    hide Safe, EmitDef;
    SafeCompute(s, h, t, slot, Conv(h.regs, from, to, o));
  }

  lemma SafeTest(s: Gen, h: Gen, t: set<nat>, slot: nat, o: Operand, ty: Ty)
    requires Safe(s, h, t, slot)
    ensures var e := Tested(h, o, ty); Safe(s, e.g, t, slot) && !Points(e.o, t, slot)
  {
    hide Safe, EmitDef;
    SafeCompute(s, h, t, slot, Test(h.regs, ty, o));
  }

  lemma SafeCast(s: Gen, h: Gen, t: set<nat>, slot: nat, o: Operand, from: Ty, to: Ty)
    requires Safe(s, h, t, slot)
    ensures var e := CastTo(h, o, from, to); Safe(s, e.g, t, slot) && (Points(e.o, t, slot) ==> Points(o, t, slot))
  {
    hide Safe, Converted, Tested, Points;
    SafeTest(s, h, t, slot, o, from);
    SafeConvert(s, h, t, slot, o, from, to);
  }

  lemma SafeBinary(s: Gen, h: Gen, t: set<nat>, slot: nat, op: BinOp, a: Val, b: Val)
    requires Safe(s, h, t, slot)
    ensures var m := EmitBinary(h, op, a, b); m.Made? ==> Safe(s, m.g, t, slot) && !Points(m.v.o, t, slot)
  {
    hide Safe, Taken, Promoted, EmitOperator, Points, Promotion;
    var lt, rt := Promotion(a.ty, b.ty), Promotion(b.ty, a.ty);
    var x := Taken(h, a);
    var y := Taken(x.g, b);
    var p := Promoted(y.g, x.o, a.ty, lt);
    var q := Promoted(p.g, y.o, b.ty, rt);
    SafeTaken(s, h, t, slot, a);
    SafeTaken(s, x.g, t, slot, b);
    SafePromoted(s, y.g, t, slot, x.o, a.ty, lt);
    SafePromoted(s, p.g, t, slot, y.o, b.ty, rt);
    SafeOperator(s, q.g, t, slot, op, p.o, lt, q.o, rt);
  }

  lemma SafePromoted(s: Gen, h: Gen, t: set<nat>, slot: nat, o: Operand, from: Ty, to: Ty)
    requires Safe(s, h, t, slot)
    ensures Safe(s, Promoted(h, o, from, to).g, t, slot)
  {
    hide Safe, Converted, EmitDef, Points;
    if from != to && to.Vec? {
      var c := Converted(h, o, from, to.elem);
      SafeConvert(s, h, t, slot, o, from, to.elem);
      SafeCompute(s, c.g, t, slot, Pack(c.g.regs, Spread(c.o, Const(0), to.size)));
    }
  }

  lemma SafeOperator(s: Gen, h: Gen, t: set<nat>, slot: nat, op: BinOp, a: Operand, lt: Ty, b: Operand, rt: Ty)
    requires Safe(s, h, t, slot)
    ensures var m := EmitOperator(h, op, a, lt, b, rt); m.Made? ==> Safe(s, m.g, t, slot) && !Points(m.v.o, t, slot)
  {
    hide Safe, EmitArrayCast, EmitDef, EmitZip, EmitArith, Points, IsElementwise;
    if IsProduct(op, lt, rt) {
      var elem := ProductElem(lt, rt);
      var x := EmitArrayCast(h, a, lt.elem, elem, lt.size);
      var y := EmitArrayCast(x.g, b, rt.elem, elem, rt.size);
      SafeArrayCast(s, h, t, slot, a, lt.elem, elem, lt.size);
      SafeArrayCast(s, x.g, t, slot, b, rt.elem, elem, rt.size);
      SafeCompute(s, y.g, t, slot, Product(y.g.regs, elem, x.o, lt.size, y.o, rt.size, ProductSize(lt, rt)));
    } else {
      match OperandType(op, lt, rt)
      case None =>
      case Some(ty) =>
        if IsElementwise(op, lt, rt) {
          ManyElements(op, lt, rt);
          SafeZip(s, h, t, slot, op, ty, a, lt, b, rt, ZipSize(lt, rt));
        } else {
          SafeArith(s, h, t, slot, op, ty, a, lt, b, rt);
        }
    }
  }

  lemma ManyElements(op: BinOp, lt: Ty, rt: Ty)
    requires IsElementwise(op, lt, rt)
    ensures ZipSize(lt, rt) > 1
  {
  }

  lemma SafeTaken(s: Gen, h: Gen, t: set<nat>, slot: nat, v: Val)
    requires Safe(s, h, t, slot)
    ensures var e := Taken(h, v); Safe(s, e.g, t, slot) && (Points(e.o, t, slot) ==> Points(v.o, t, slot))
  {
    hide Safe, Loaded, Points;
    SafeLoad(s, h, t, slot, v);
  }

  lemma SafeArith(s: Gen, h: Gen, t: set<nat>, slot: nat, op: BinOp, ty: Ty, a: Operand, lt: Ty, b: Operand, rt: Ty)
    requires Safe(s, h, t, slot)
    ensures var e := EmitArith(h, op, ty, a, lt, b, rt); Safe(s, e.g, t, slot) && !Points(e.o, t, slot)
  {
    hide Safe, Converted, EmitDef, Points;
    var p := Converted(h, a, lt, ty);
    var q := Converted(p.g, b, rt, ty);
    SafeConvert(s, h, t, slot, a, lt, ty);
    SafeConvert(s, p.g, t, slot, b, rt, ty);
    SafeCompute(s, q.g, t, slot, Arith(q.g.regs, op, ty, p.o, q.o));
  }

  lemma SafeElement(s: Gen, h: Gen, t: set<nat>, slot: nat, o: Operand, ty: Ty, i: nat)
    requires Safe(s, h, t, slot)
    ensures Safe(s, EmitElement(h, o, ty, i).g, t, slot)
  {
    hide Safe, EmitDef;
    SafeCompute(s, h, t, slot, Element(h.regs, o, i));
  }

  lemma {:induction false} SafeElements(s: Gen, h: Gen, t: set<nat>, slot: nat, op: BinOp, ty: Ty, a: Operand, lt: Ty,
      b: Operand, rt: Ty, size: nat)
    requires Safe(s, h, t, slot)
    ensures var es := EmitElements(h, op, ty, a, lt, b, rt, size); Safe(s, es.g, t, slot) && NonePoints(es.os, t, slot)
    decreases size
  {
    hide Safe, EmitElement, EmitArith, Points;
    if size > 0 {
      var es := EmitElements(h, op, ty, a, lt, b, rt, size - 1);
      var x := EmitElement(es.g, a, lt, size - 1);
      var y := EmitElement(x.g, b, rt, size - 1);
      SafeElements(s, h, t, slot, op, ty, a, lt, b, rt, size - 1);
      SafeElement(s, es.g, t, slot, a, lt, size - 1);
      SafeElement(s, x.g, t, slot, b, rt, size - 1);
      SafeArith(s, y.g, t, slot, op, ty, x.o, ElementOf(lt), y.o, ElementOf(rt));
    }
  }

  lemma {:induction false} SafeReduce(s: Gen, h: Gen, t: set<nat>, slot: nat, op: BinOp, os: seq<Operand>)
    requires Safe(s, h, t, slot) && NonePoints(os, t, slot)
    ensures var e := EmitReduce(h, op, os); Safe(s, e.g, t, slot) && (|os| > 0 ==> !Points(e.o, t, slot))
    decreases |os|
  {
    hide Safe, EmitDef;
    if |os| > 1 {
      var r := EmitReduce(h, op, os[..|os| - 1]);
      SafeReduce(s, h, t, slot, op, os[..|os| - 1]);
      SafeCompute(s, r.g, t, slot, Arith(r.g.regs, ReduceOp(op), Bool, r.o, os[|os| - 1]));
    }
  }

  lemma SafeZip(s: Gen, h: Gen, t: set<nat>, slot: nat, op: BinOp, ty: Ty, a: Operand, lt: Ty, b: Operand, rt: Ty,
      size: nat)
    requires Safe(s, h, t, slot) && size > 0
    ensures var e := EmitZip(h, op, ty, a, lt, b, rt, size); Safe(s, e.g, t, slot) && !Points(e.o, t, slot)
  {
    hide Safe, EmitElements, EmitReduce, EmitDef, Points;
    var es := EmitElements(h, op, ty, a, lt, b, rt, size);
    SafeElements(s, h, t, slot, op, ty, a, lt, b, rt, size);
    SafeReduce(s, es.g, t, slot, op, es.os);
    SafeCompute(s, es.g, t, slot, Pack(es.g.regs, es.os));
  }

  lemma {:induction false} SafeUnpacked(s: Gen, h: Gen, t: set<nat>, slot: nat, o: Operand, size: nat)
    requires Safe(s, h, t, slot)
    ensures Safe(s, Unpacked(h, o, size).g, t, slot)
    decreases size
  {
    hide Safe, EmitDef;
    if size > 0 {
      var es := Unpacked(h, o, size - 1);
      SafeUnpacked(s, h, t, slot, o, size - 1);
      SafeCompute(s, es.g, t, slot, Element(es.g.regs, o, size - 1));
    }
  }

  lemma {:induction false} SafeEach(s: Gen, h: Gen, t: set<nat>, slot: nat, op: UnOp, elem: Ty, os: seq<Operand>)
    requires Safe(s, h, t, slot)
    ensures Safe(s, EmitEach(h, op, elem, os).g, t, slot)
    decreases |os|
  {
    hide Safe, EmitDef;
    if |os| > 0 {
      var es := EmitEach(h, op, elem, os[..|os| - 1]);
      SafeEach(s, h, t, slot, op, elem, os[..|os| - 1]);
      SafeCompute(s, es.g, t, slot, Negate(es.g.regs, op, elem, os[|os| - 1]));
    }
  }

  lemma SafeUnaryEach(s: Gen, h: Gen, t: set<nat>, slot: nat, op: UnOp, ty: Ty, o: Operand)
    requires ty.IsArray() && Safe(s, h, t, slot)
    ensures var e := EmitUnaryEach(h, op, ty, o); Safe(s, e.g, t, slot) && !Points(e.o, t, slot)
  {
    hide Safe, Unpacked, EmitEach, EmitDef, Points;
    var x := Unpacked(h, o, ty.size);
    var y := EmitEach(x.g, op, ty.elem, x.os);
    SafeUnpacked(s, h, t, slot, o, ty.size);
    SafeEach(s, x.g, t, slot, op, ty.elem, x.os);
    SafeCompute(s, y.g, t, slot, Pack(y.g.regs, y.os));
  }

  /** The addresses of the elements of another array do not point to the slot. */
  lemma {:induction false} SafeCells(s: Gen, h: Gen, t: set<nat>, slot: nat, target: Operand, elem: Ty, o: Operand,
      ty: Ty, size: nat)
    requires Safe(s, h, t, slot) && !Points(target, t, slot) && Below(target, h.regs)
    ensures var k := EmitCells(h, target, elem, o, ty, size); Safe(s, k, t, slot) && h.regs <= k.regs
    decreases size
  {
    hide Safe, EmitElement, Converted, Emit;
    if size > 0 {
      var before := EmitCells(h, target, elem, o, ty, size - 1);
      SafeCells(s, h, t, slot, target, elem, o, ty, size - 1);
      var l := EmitDef(before, Gep(before.regs, target, Const(size - 1)));
      SafeGep(s, before, t, slot, target, Const(size - 1));
      var r := EmitElement(l.g, o, ty, size - 1);
      SafeElement(s, l.g, t, slot, o, ty, size - 1);
      ElementGrows(l.g, o, ty, size - 1);
      var c := Converted(r.g, r.o, ElementOf(ty), elem);
      SafeConvert(s, r.g, t, slot, r.o, ElementOf(ty), elem);
      ConvertedRegs(r.g, r.o, ElementOf(ty), elem);
      SafeStore(s, c.g, t, slot, l.o, c.o);
    }
  }

  lemma ElementGrows(h: Gen, o: Operand, ty: Ty, i: nat)
    ensures h.regs <= EmitElement(h, o, ty, i).g.regs
  {
  }

  lemma SafeGep(s: Gen, h: Gen, t: set<nat>, slot: nat, base: Operand, index: Operand)
    requires Safe(s, h, t, slot) && !Points(base, t, slot) && Below(base, h.regs)
    ensures var e := EmitDef(h, Gep(h.regs, base, index)); Safe(s, e.g, t, slot) && !Points(e.o, t, slot)
  {
    hide Safe;
    var i := Gep(h.regs, base, index);
    SafeEmit(s, h, t, slot, i);
    AddsNothing(t, h.regs);
    Bounded(s, h, t, slot);
    SafeMore(s, Emit(h, i), t, slot, t, h.regs + 1);
  }

  lemma SafeStore(s: Gen, h: Gen, t: set<nat>, slot: nat, a: Operand, v: Operand)
    requires Safe(s, h, t, slot) && !Points(a, t, slot) && Below(a, h.regs)
    ensures Safe(s, Emit(h, Store(a, v)), t, slot)
  {
    SafeEmit(s, h, t, slot, Store(a, v));
  }

  lemma SafeAssign(s: Gen, h: Gen, t: set<nat>, slot: nat, target: Val, o: Operand, ty: Ty)
    requires Safe(s, h, t, slot) && !Points(target.o, t, slot) && Below(target.o, h.regs)
    ensures var r := EmitAssign(h, target, o, ty); r.Some? ==> Safe(s, r.value, t, slot)
  {
    hide Safe, Converted, EmitBinary, EmitCells, Emit, Points, Promoted;
    if CanAssign(StaticOf(target), ty) {
      if target.ty.IsArray() {
        var from := Promotion(ty, target.ty);
        var p := Promoted(h, o, ty, from);
        SafePromoted(s, h, t, slot, o, ty, from);
        PromotedGrows(h, o, ty, from);
        SafeCells(s, p.g, t, slot, target.o, target.ty.elem, p.o, from, target.ty.size);
      } else if target.ty == Bool {
        var zero := Val(Const(0), Int32, false);
        var m := EmitBinary(h, NotEquals, zero, Val(o, ty, false));
        SafeBinary(s, h, t, slot, NotEquals, zero, Val(o, ty, false));
        BinaryRegs(h, NotEquals, zero, Val(o, ty, false));
        if m.Made? { SafeStore(s, m.g, t, slot, target.o, m.v.o); }
      } else {
        var c := Converted(h, o, ty, target.ty);
        SafeConvert(s, h, t, slot, o, ty, target.ty);
        ConvertedRegs(h, o, ty, target.ty);
        SafeStore(s, c.g, t, slot, target.o, c.o);
      }
    }
  }

  lemma ConvertedRegs(h: Gen, o: Operand, from: Ty, to: Ty)
    ensures h.regs <= Converted(h, o, from, to).g.regs
  {
  }

  lemma LoadedRegs(h: Gen, v: Val)
    ensures h.regs <= Loaded(h, v).g.regs
  {
  }

  lemma TakenRegs(h: Gen, v: Val)
    ensures h.regs <= Taken(h, v).g.regs
  {
  }

  lemma BinaryRegs(h: Gen, op: BinOp, a: Val, b: Val)
    ensures var m := EmitBinary(h, op, a, b); m.Made? ==> h.regs <= m.g.regs
  {
    hide Taken, Promoted, EmitOperator, Promotion;
    var lt, rt := Promotion(a.ty, b.ty), Promotion(b.ty, a.ty);
    var x := Taken(h, a);
    var y := Taken(x.g, b);
    var p := Promoted(y.g, x.o, a.ty, lt);
    var q := Promoted(p.g, y.o, b.ty, rt);
    TakenRegs(h, a);
    TakenRegs(x.g, b);
    PromotedGrows(y.g, x.o, a.ty, lt);
    PromotedGrows(p.g, y.o, b.ty, rt);
    OperatorRegs(q.g, op, p.o, lt, q.o, rt);
  }

  lemma PromotedGrows(h: Gen, o: Operand, from: Ty, to: Ty)
    ensures h.regs <= Promoted(h, o, from, to).g.regs
  {
  }

  lemma {:induction false} CastCellsRegs(h: Gen, o: Operand, from: Ty, to: Ty, size: nat)
    ensures h.regs <= EmitCastCells(h, o, from, to, size).g.regs
    decreases size
  {
    if size > 0 { CastCellsRegs(h, o, from, to, size - 1); }
  }

  lemma OperatorRegs(h: Gen, op: BinOp, a: Operand, lt: Ty, b: Operand, rt: Ty)
    ensures var m := EmitOperator(h, op, a, lt, b, rt); m.Made? ==> h.regs <= m.g.regs
  {
    hide EmitCastCells, EmitZip, EmitArith, IsElementwise;
    if IsProduct(op, lt, rt) {
      var t := ProductElem(lt, rt);
      var x := EmitArrayCast(h, a, lt.elem, t, lt.size);
      CastCellsRegs(h, a, lt.elem, t, lt.size);
      CastCellsRegs(x.g, b, rt.elem, t, rt.size);
    } else {
      match OperandType(op, lt, rt)
      case None =>
      case Some(t) =>
        ZipRegs(h, op, t, a, lt, b, rt, ZipSize(lt, rt));
        ArithRegs(h, op, t, a, lt, b, rt);
    }
  }

  lemma ArithRegs(h: Gen, op: BinOp, t: Ty, a: Operand, lt: Ty, b: Operand, rt: Ty)
    ensures h.regs <= EmitArith(h, op, t, a, lt, b, rt).g.regs
  {
  }

  lemma {:induction false} ElementsRegs(h: Gen, op: BinOp, t: Ty, a: Operand, lt: Ty, b: Operand, rt: Ty, size: nat)
    ensures h.regs <= EmitElements(h, op, t, a, lt, b, rt, size).g.regs
    decreases size
  {
    hide EmitElement, EmitArith;
    if size > 0 {
      var es := EmitElements(h, op, t, a, lt, b, rt, size - 1);
      var x := EmitElement(es.g, a, lt, size - 1);
      var y := EmitElement(x.g, b, rt, size - 1);
      ElementsRegs(h, op, t, a, lt, b, rt, size - 1);
      ElementGrows(es.g, a, lt, size - 1);
      ElementGrows(x.g, b, rt, size - 1);
      ArithRegs(y.g, op, t, x.o, ElementOf(lt), y.o, ElementOf(rt));
    }
  }

  lemma {:induction false} ReduceRegs(h: Gen, op: BinOp, os: seq<Operand>)
    ensures h.regs <= EmitReduce(h, op, os).g.regs
    decreases |os|
  {
    if |os| > 1 { ReduceRegs(h, op, os[..|os| - 1]); }
  }

  lemma ZipRegs(h: Gen, op: BinOp, t: Ty, a: Operand, lt: Ty, b: Operand, rt: Ty, size: nat)
    ensures h.regs <= EmitZip(h, op, t, a, lt, b, rt, size).g.regs
  {
    hide EmitElements, EmitReduce;
    var es := EmitElements(h, op, t, a, lt, b, rt, size);
    ElementsRegs(h, op, t, a, lt, b, rt, size);
    ReduceRegs(es.g, op, es.os);
  }

  predicate NoValPoints(vs: seq<Val>, t: set<nat>, slot: nat) {
    forall i | 0 <= i < |vs| :: !Points(vs[i].o, t, slot)
  }

  lemma {:induction false} SafeLoadAll(s: Gen, h: Gen, t: set<nat>, slot: nat, vs: seq<Val>)
    requires Safe(s, h, t, slot)
    ensures var e := LoadAll(h, vs); Safe(s, e.g, t, slot) && (NoValPoints(vs, t, slot) ==> NonePoints(e.os, t, slot))
    decreases |vs|
  {
    if |vs| > 0 {
      hide Safe, Taken, Points;
      SafeTaken(s, h, t, slot, vs[|vs| - 1]);
      SafeLoadAll(s, Taken(h, vs[|vs| - 1]).g, t, slot, vs[..|vs| - 1]);
    }
  }

  lemma {:induction false} SafeCastCells(s: Gen, h: Gen, t: set<nat>, slot: nat, o: Operand, from: Ty, to: Ty,
      size: nat)
    requires Safe(s, h, t, slot)
    ensures Safe(s, EmitCastCells(h, o, from, to, size).g, t, slot)
    decreases size
  {
    hide Safe, EmitDef;
    if size > 0 {
      var es := EmitCastCells(h, o, from, to, size - 1);
      var l := EmitDef(es.g, Element(es.g.regs, o, size - 1));
      SafeCastCells(s, h, t, slot, o, from, to, size - 1);
      SafeCompute(s, es.g, t, slot, Element(es.g.regs, o, size - 1));
      SafeCompute(s, l.g, t, slot, Conv(l.g.regs, from, to, l.o));
    }
  }

  lemma SafeArrayCast(s: Gen, h: Gen, t: set<nat>, slot: nat, o: Operand, from: Ty, to: Ty, size: nat)
    requires Safe(s, h, t, slot)
    ensures var e := EmitArrayCast(h, o, from, to, size);
            Safe(s, e.g, t, slot) && (Points(e.o, t, slot) ==> Points(o, t, slot))
  {
    hide Safe, EmitDef, EmitCastCells, Points;
    if from != to {
      var es := EmitCastCells(h, o, from, to, size);
      SafeCastCells(s, h, t, slot, o, from, to, size);
      SafeCompute(s, es.g, t, slot, Pack(es.g.regs, es.os));
    }
  }

  lemma SafeArg(s: Gen, h: Gen, t: set<nat>, slot: nat, to: ArgTy, from: ArgTy, o: Operand)
    requires Safe(s, h, t, slot)
    ensures var e := EmitArg(h, to, from, o); Safe(s, e.g, t, slot) && (Points(e.o, t, slot) ==> Points(o, t, slot))
  {
    hide Safe, EmitArrayCast, CastTo, Points;
    if !from.Pointer? { SafeCast(s, h, t, slot, o, ElementType(from), ElementType(to)); }
    else {
      SafeArrayCast(s, h, t, slot, o, ElementOf(ElementType(from)), ElementOf(ElementType(to)), SizeBehind(from));
    }
  }

  lemma {:induction false} SafeCastAll(s: Gen, h: Gen, t: set<nat>, slot: nat, params: seq<Parameter>, ts: seq<ArgTy>,
      os: seq<Operand>)
    requires |params| == |ts| == |os| && Safe(s, h, t, slot) && NonePoints(os, t, slot)
    ensures var e := CastAll(h, params, ts, os); Safe(s, e.g, t, slot) && NonePoints(e.os, t, slot)
    decreases |os|
  {
    if |os| > 0 {
      hide Safe, EmitArg, Points;
      var x := EmitArg(h, params[0].ty, ts[0], os[0]);
      SafeArg(s, h, t, slot, params[0].ty, ts[0], os[0]);
      SafeCastAll(s, x.g, t, slot, params[1..], ts[1..], os[1..]);
    }
  }

  /** A call is given no pointer to the slot and returns none. */
  lemma SafeCall(s: Gen, h: Gen, t: set<nat>, slot: nat, group: seq<Signature>, vs: seq<Val>)
    requires Safe(s, h, t, slot) && NoValPoints(vs, t, slot)
    requires forall i | 0 <= i < |vs| :: Below(vs[i].o, h.regs)
    ensures var m := EmitCall(group, h, vs); m.Made? ==> Safe(s, m.g, t, slot) && !Points(m.v.o, t, slot)
  {
    hide Safe, LoadAll, CastAll, EmitDef, Resolve, Points, Frame;
    var ts := ArgTypes(vs);
    var r := Resolve(group, ts);
    if r.target.Some? {
      ResolveFits(group, ts);
      FrameSelf(h);
      ThenLoadAll(h, h, vs);
      var x := LoadAll(h, vs);
      SafeLoadAll(s, h, t, slot, vs);
      var y := if r.kind == Implicit then CastAll(x.g, r.target.value.params, ts, x.os) else x;
      if r.kind == Implicit {
        SafeCastAll(s, x.g, t, slot, r.target.value.params, ts, x.os);
        ThenCastAll(h, x.g, r.target.value.params, ts, x.os);
      }
      SafeInvoke(s, y.g, t, slot, r.target.value, y.os);
    }
  }

  /** A register that receives an address joins the others if that address may point to the slot. */
  lemma SafePass(s: Gen, h: Gen, t: set<nat>, slot: nat, i: Instr, points: bool) returns (t1: set<nat>)
    requires Safe(s, h, t, slot)
    requires Guarded(i, if points then t + {h.regs} else t, slot, h.regs + 1)
    ensures var e := EmitDef(h, i);
            Safe(s, e.g, t1, slot) && Adds(t, h.regs, t1) && (Points(e.o, t1, slot) ==> points)
  {
    hide Guarded;
    t1 := if points then t + {h.regs} else t;
    SafeMore(s, h, t, slot, t1, h.regs + 1);
    SafeEmit(s, h.(regs := h.regs + 1), t1, slot, i);
  }

  lemma SafeInsert(s: Gen, h: Gen, t: set<nat>, slot: nat, b: nat, code: seq<Instr>)
    requires Safe(s, h, t, slot) && s.ip < |s.blocks| <= b < |h.blocks|
    requires forall j | 0 <= j < |code| :: Guarded(code[j], t, slot, h.regs)
    ensures Safe(s, InsertBefore(h, b, code), t, slot)
  {
    hide Guarded;
    var code0 := Code(h, b);
    var h1 := InsertBefore(h, b, code);
    if |code0| > 0 {
      var n := |code0| - 1;
      forall c, k | 0 <= c < |h1.blocks| && 0 <= k < |Code(h1, c)| && Since(s, c, k)
        ensures Guarded(Code(h1, c)[k], t, slot, h.regs)
      {
        if c == b {
          assert forall j | 0 <= j < |code0| :: Guarded(code0[j], t, slot, h.regs) by {
            assert forall j | 0 <= j < |code0| :: Since(s, b, j);
          }
          assert Code(h1, b) == code0[..n] + code + code0[n..];
        }
      }
    }
  }

  lemma CoerceGuarded(r: nat, v: Val, to: Static, t: set<nat>, slot: nat, k: nat)
    requires forall x | x in t :: x < r
    ensures var c := CoerceCode(r, v, to);
            && (forall j | 0 <= j < |c.code| :: Guarded(c.code[j], t, slot, k))
            && (Points(c.o, t, slot) ==> Points(v.o, t, slot))
  {
    CoerceComputes(r, v, to);
    CoerceIsNew(r, v, to);
    hide CoerceCode;
  }

  lemma CoerceIsNew(r: nat, v: Val, to: Static)
    ensures var o := CoerceCode(r, v, to).o; o == v.o || (o.Reg? && r <= o.r)
  {
    if to.Typed? && v.ty.IsArray() { CellsCodeRegs(r, v.o, v.ty.elem, ElementOf(to.ty), v.ty.size); }
  }

  /** The value of a ternary may point to the slot if the value of a branch may. */
  lemma SafeJoin(s: Gen, h: Gen, t: set<nat>, slot: nat, ret: nat, tEnd: nat, a: Val, fEnd: nat, b: Val)
    returns (t1: set<nat>)
    requires Safe(s, h, t, slot) && ret < |h.blocks|
    requires s.ip < |s.blocks| <= tEnd < |h.blocks| && |s.blocks| <= fEnd < |h.blocks|
    requires Below(a.o, h.regs) && Below(b.o, h.regs)
    ensures var m := JoinTernary(ret, tEnd, a, fEnd, b, h);
            m.Made? ==> Safe(s, m.g, t1, slot) && Adds(t, h.regs, t1) &&
                        (Points(m.v.o, t1, slot) ==> Points(a.o, t, slot) || Points(b.o, t, slot))
  {
    hide Safe, InsertBefore, EmitDef, CoerceCode, Guarded;
    t1 := t;
    var ty := TypeOfTernary(StaticOf(a), StaticOf(b));
    AddsNothing(t, h.regs);
    if ty.Typed? {
      var x := CoerceCode(h.regs, a, ty);
      var y := CoerceCode(x.regs, b, ty);
      CoerceFrame(h.regs, a, ty);
      CoerceFrame(x.regs, b, ty);
      Bounded(s, h, t, slot);
      CoerceGuarded(h.regs, a, ty, t, slot, h.regs);
      CoerceGuarded(x.regs, b, ty, t, slot, h.regs);
      var h1 := InsertBefore(h, tEnd, x.code);
      var h2 := InsertBefore(h1, fEnd, y.code);
      SafeInsert(s, h, t, slot, tEnd, x.code);
      SafeInsert(s, h1, t, slot, fEnd, y.code);
      SafeMore(s, h2, t, slot, t, y.regs);
      var h3: Gen := h2.(regs := y.regs);
      SafeAt(s, h3, t, slot, ret);
      if !(StaticOf(a) == StaticOf(b) == Typed(Void, false)) {
        var points := Points(x.o, t, slot) || Points(y.o, t, slot);
        var phi := Phi(y.regs, [Arm(tEnd, x.o), Arm(fEnd, y.o)]);
        PhiGuarded(phi, if points then t + {y.regs} else t, slot, y.regs + 1, points);
        t1 := SafePass(s, At(h3, ret), t, slot, phi, points);
      }
    }
  }

  lemma PhiGuarded(i: Instr, t: set<nat>, slot: nat, k: nat, points: bool)
    requires i.Phi? && |i.arms| == 2 && Below(i.arms[0].val, k) && Below(i.arms[1].val, k)
    requires points ==> i.dst in t
    requires !points ==> !Points(i.arms[0].val, t, slot) && !Points(i.arms[1].val, t, slot)
    ensures Guarded(i, t, slot, k)
  {
  }

  // ---------------------------------------------------------------------------------------
  // Expressions

  /** What a visit keeps: all code is guarded, and the value may point to the slot only if the
      attribute occurs in the expression. */
  ghost predicate Kept(s: Gen, g: Gen, t: set<nat>, slot: nat, m: Made, t1: set<nat>, occurs: bool) {
    && (!m.Fail? ==> Safe(s, m.g, t1, slot) && Adds(t, g.regs, t1))
    && (m.Made? ==> Points(m.v.o, t1, slot) ==> occurs)
  }

  lemma LowerGrows(fs: Functions, e: Expr, env: Env, g: Gen)
    ensures var m := Lower(fs, e, env, g);
            && (!m.Fail? ==> |g.blocks| <= |m.g.blocks| && g.regs <= m.g.regs)
            && (m.Made? ==> Below(m.v.o, m.g.regs))
  {
    hide Frame, Check;
    LowerFrame(fs, e, env, g);
  }

  lemma {:induction false} LowerSafe(fs: Functions, e: Expr, env: Env, s: Gen, g: Gen, t: set<nat>, n: nat, key: Key,
      slot: nat) returns (t1: set<nat>)
    requires Apart(env, n) && Owns(env, key, slot) && key !in Written(e)
    requires Safe(s, g, t, slot) && |s.blocks| <= |g.blocks|
    ensures Kept(s, g, t, slot, Lower(fs, e, env, g), t1, key in Tokens(e))
    decreases e, 1
  {
    hide Apart, Safe, Adds, Loaded, Taken, CastTo, EmitDef, Emit, LowerLogical, LowerTernary, EmitCall, EmitBinary,
      EmitUnaryEach, EmitAssign, EmitPack, Points;
    t1 := t;
    AddsNothing(t, g.regs);
    match e
    case Literal(_, _) => ConstPoints(t, slot);
    case Local(name) => LocalElsewhere(env, name, t, n, key, slot);
    case Attribute(ty, name) => AttributeElsewhere(env, ty, name, t, n, key, slot);
    case Component(_, _) => t1 := ComponentSafe(fs, e, env, s, g, t, n, key, slot);
    case MatrixEntry(_, _, _) => t1 := EntrySafe(fs, e, env, s, g, t, n, key, slot);
    case Unary(_, _) => t1 := UnarySafe(fs, e, env, s, g, t, n, key, slot);
    case Binary(_, _, _) => t1 := BinaryExprSafe(fs, e, env, s, g, t, n, key, slot);
    case Logical(_, _, _) => t1 := LogicalSafe(fs, e, env, s, g, t, n, key, slot);
    case Ternary(_, _, _) => t1 := TernarySafe(fs, e, env, s, g, t, n, key, slot);
    case Comma(es) => t1 := CommaSafe(fs, es, env, s, g, t, n, key, slot);
    case Assign(_, _, _) => t1 := AssignmentSafe(fs, e, env, s, g, t, n, key, slot);
    case Crement(_, _, _) => t1 := CrementSafe(fs, e, env, s, g, t, n, key, slot);
    case Cast(_, _) => t1 := CastExprSafe(fs, e, env, s, g, t, n, key, slot);
    case Call(_, _) => t1 := CallExprSafe(fs, e, env, s, g, t, n, key, slot);
    case ArrayPack(_) => t1 := PackExprSafe(fs, e, env, s, g, t, n, key, slot);
  }

  lemma ConstPoints(t: set<nat>, slot: nat)
    ensures forall n :: !Points(Const(n), t, slot)
  {
  }

  lemma LocalElsewhere(env: Env, name: string, t: set<nat>, n: nat, key: Key, slot: nat)
    requires Apart(env, n) && Owns(env, key, slot)
    ensures var v := Lookup(env.scopes, Name(name)); v.Some? ==> !Points(Slot(v.value.slot), t, slot)
  {
    LocalApart(env.scopes, name, n);
  }

  lemma AttributeElsewhere(env: Env, ty: Ty, name: string, t: set<nat>, n: nat, key: Key, slot: nat)
    requires Apart(env, n) && Owns(env, key, slot)
    ensures var v := LookupAttribute(env, Token(ty, name));
            v.Some? && Points(Slot(v.value.slot), t, slot) ==> key == Token(ty, name)
  {
  }

  lemma {:induction false} ComponentSafe(fs: Functions, e: Expr, env: Env, s: Gen, g: Gen, t: set<nat>, n: nat,
      key: Key, slot: nat) returns (t1: set<nat>)
    requires e.Component? && Apart(env, n) && Owns(env, key, slot) && key !in Written(e)
    requires Safe(s, g, t, slot) && |s.blocks| <= |g.blocks|
    ensures Kept(s, g, t, slot, Lower(fs, e, env, g), t1, key in Tokens(e))
    decreases e, 0
  {
    hide Apart, Safe, Adds, Loaded, EmitDef, Points, Guarded;
    t1 := LowerSafe(fs, e.index, env, s, g, t, n, key, slot);
    LowerGrows(fs, e.index, env, g);
    var i := Lower(fs, e.index, env, g);
    if i.Made? {
      var t2 := LowerSafe(fs, e.vec, env, s, i.g, t1, n, key, slot);
      LowerGrows(fs, e.vec, env, i.g);
      var v := Lower(fs, e.vec, env, i.g);
      if v.Made? && v.v.ptr && v.v.ty.Vec? && i.v.ty.IsInteger() {
        AddsTrans(t, g.regs, t1, i.g.regs, t2);
        var x := Loaded(v.g, i.v);
        SafeLoad(s, v.g, t2, slot, i.v);
        LoadedRegs(v.g, i.v);
        var points := Points(v.v.o, t2, slot);
        GepGuarded(x.g.regs, v.v.o, x.o, t2, slot, points);
        t1 := SafePass(s, x.g, t2, slot, Gep(x.g.regs, v.v.o, x.o), points);
        AddsTrans(t, g.regs, t2, x.g.regs, t1);
      }
    }
  }

  lemma SafeEntry(s: Gen, h: Gen, t: set<nat>, slot: nat, row: Val, column: Val, m: Val) returns (t1: set<nat>)
    requires Safe(s, h, t, slot) && Below(m.o, h.regs)
    ensures var e := EmitEntry(h, row, column, m);
            Safe(s, e.g, t1, slot) && Adds(t, h.regs, t1) && (Points(e.o, t1, slot) ==> Points(m.o, t, slot))
  {
    hide Safe, Adds, Loaded, EmitDef, Points, Guarded;
    var x := Loaded(h, row);
    var y := Loaded(x.g, column);
    var mul := Arith(y.g.regs, Multiply, Int32, x.o, Const(Dimension(m.ty)));
    var p := EmitDef(y.g, mul);
    var add := Arith(p.g.regs, Plus, Int32, p.o, y.o);
    var q := EmitDef(p.g, add);
    SafeLoad(s, h, t, slot, row);
    SafeLoad(s, x.g, t, slot, column);
    LoadedRegs(h, row);
    LoadedRegs(x.g, column);
    SafeCompute(s, y.g, t, slot, mul);
    SafeCompute(s, p.g, t, slot, add);
    var points := Points(m.o, t, slot);
    GepGuarded(q.g.regs, m.o, q.o, t, slot, points);
    t1 := SafePass(s, q.g, t, slot, Gep(q.g.regs, m.o, q.o), points);
    AddsNothing(t, h.regs);
    AddsTrans(t, h.regs, t, q.g.regs, t1);
  }

  lemma {:induction false} EntrySafe(fs: Functions, e: Expr, env: Env, s: Gen, g: Gen, t: set<nat>, n: nat, key: Key,
      slot: nat) returns (t1: set<nat>)
    requires e.MatrixEntry? && Apart(env, n) && Owns(env, key, slot) && key !in Written(e)
    requires Safe(s, g, t, slot) && |s.blocks| <= |g.blocks|
    ensures Kept(s, g, t, slot, Lower(fs, e, env, g), t1, key in Tokens(e))
    decreases e, 0
  {
    hide Apart, Safe, Adds, EmitEntry, Points;
    t1 := LowerSafe(fs, e.row, env, s, g, t, n, key, slot);
    LowerGrows(fs, e.row, env, g);
    var i := Lower(fs, e.row, env, g);
    if i.Made? {
      var t2 := LowerSafe(fs, e.column, env, s, i.g, t1, n, key, slot);
      LowerGrows(fs, e.column, env, i.g);
      var j := Lower(fs, e.column, env, i.g);
      if j.Made? {
        AddsTrans(t, g.regs, t1, i.g.regs, t2);
        var t3 := LowerSafe(fs, e.matrix, env, s, j.g, t2, n, key, slot);
        LowerGrows(fs, e.matrix, env, j.g);
        var v := Lower(fs, e.matrix, env, j.g);
        if v.Made? {
          AddsTrans(t, g.regs, t2, j.g.regs, t3);
          t1 := SafeEntry(s, v.g, t3, slot, i.v, j.v, v.v);
          AddsTrans(t, g.regs, t3, v.g.regs, t1);
        }
      }
    }
  }

  lemma GepGuarded(dst: nat, b: Operand, i: Operand, t: set<nat>, slot: nat, points: bool)
    requires Below(b, dst) && points == Points(b, t, slot)
    ensures Guarded(Gep(dst, b, i), if points then t + {dst} else t, slot, dst + 1)
  {
  }

  lemma {:induction false} UnarySafe(fs: Functions, e: Expr, env: Env, s: Gen, g: Gen, t: set<nat>, n: nat,
      key: Key, slot: nat) returns (t1: set<nat>)
    requires e.Unary? && Apart(env, n) && Owns(env, key, slot) && key !in Written(e)
    requires Safe(s, g, t, slot) && |s.blocks| <= |g.blocks|
    ensures Kept(s, g, t, slot, Lower(fs, e, env, g), t1, key in Tokens(e))
    decreases e, 0
  {
    hide Apart, Safe, Adds, Loaded, Converted, EmitUnaryEach, EmitDef, Points;
    t1 := LowerSafe(fs, e.operand, env, s, g, t, n, key, slot);
    var r := Lower(fs, e.operand, env, g);
    if e.unOp != UnaryPlus && r.Made? && r.v.ty.IsArray() {
      SafeUnaryEach(s, r.g, t1, slot, e.unOp, r.v.ty, r.v.o);
    } else if e.unOp != UnaryPlus && r.Made? && TypeOfUnary(e.unOp, r.v.ty).Typed? {
      var x := Loaded(r.g, r.v);
      var wide := if e.unOp == LogicalNot then r.v.ty else UnaryType(r.v.ty);
      var y := Converted(x.g, x.o, r.v.ty, wide);
      SafeLoad(s, r.g, t1, slot, r.v);
      SafeConvert(s, x.g, t1, slot, x.o, r.v.ty, wide);
      SafeCompute(s, y.g, t1, slot, Negate(y.g.regs, e.unOp, wide, y.o));
    }
  }

  lemma {:induction false} BinaryExprSafe(fs: Functions, e: Expr, env: Env, s: Gen, g: Gen, t: set<nat>, n: nat,
      key: Key, slot: nat) returns (t1: set<nat>)
    requires e.Binary? && Apart(env, n) && Owns(env, key, slot) && key !in Written(e)
    requires Safe(s, g, t, slot) && |s.blocks| <= |g.blocks|
    ensures Kept(s, g, t, slot, Lower(fs, e, env, g), t1, key in Tokens(e))
    decreases e, 0
  {
    hide Apart, Safe, Adds, EmitBinary, Points;
    t1 := LowerSafe(fs, e.lhs, env, s, g, t, n, key, slot);
    LowerGrows(fs, e.lhs, env, g);
    var a := Lower(fs, e.lhs, env, g);
    if a.Made? {
      var t2 := LowerSafe(fs, e.rhs, env, s, a.g, t1, n, key, slot);
      var b := Lower(fs, e.rhs, env, a.g);
      if b.Made? {
        AddsTrans(t, g.regs, t1, a.g.regs, t2);
        t1 := t2;
        SafeBinary(s, b.g, t2, slot, e.binOp, a.v, b.v);
        BinaryMade(b.g, e.binOp, a.v, b.v);
      }
    }
  }

  lemma {:induction false} CastExprSafe(fs: Functions, e: Expr, env: Env, s: Gen, g: Gen, t: set<nat>, n: nat,
      key: Key, slot: nat) returns (t1: set<nat>)
    requires e.Cast? && Apart(env, n) && Owns(env, key, slot) && key !in Written(e)
    requires Safe(s, g, t, slot) && |s.blocks| <= |g.blocks|
    ensures Kept(s, g, t, slot, Lower(fs, e, env, g), t1, key in Tokens(e))
    decreases e, 0
  {
    hide Apart, Safe, Adds, Loaded, CastTo, Points;
    t1 := LowerSafe(fs, e.inner, env, s, g, t, n, key, slot);
    var a := Lower(fs, e.inner, env, g);
    if a.Made? && a.v.ty.IsScalar() && e.castTy.IsScalar() && a.v.ty != e.castTy {
      var x := Loaded(a.g, a.v);
      SafeLoad(s, a.g, t1, slot, a.v);
      SafeCast(s, x.g, t1, slot, x.o, a.v.ty, e.castTy);
    }
  }

  lemma {:induction false} CallExprSafe(fs: Functions, e: Expr, env: Env, s: Gen, g: Gen, t: set<nat>, n: nat,
      key: Key, slot: nat) returns (t1: set<nat>)
    requires e.Call? && Apart(env, n) && Owns(env, key, slot) && key !in Written(e)
    requires Safe(s, g, t, slot) && |s.blocks| <= |g.blocks|
    ensures Kept(s, g, t, slot, Lower(fs, e, env, g), t1, key in Tokens(e))
    decreases e, 0
  {
    hide Apart, Safe, Adds, EmitCall, Points;
    WrittenInOccurs(e.args);
    t1 := ArgsSafe(fs, e.args, env, s, g, t, n, key, slot);
    var a := LowerArgs(fs, e.args, env, g);
    if e.callee in fs && a.Args? {
      ArgsBelow(fs, e.args, env, g);
      SafeCall(s, a.g, t1, slot, fs[e.callee], a.vs);
    }
  }

  lemma {:induction false} SafeConvertAll(s: Gen, h: Gen, t: set<nat>, slot: nat, ts: seq<Ty>, to: Ty,
      os: seq<Operand>)
    requires |ts| == |os| && Safe(s, h, t, slot)
    ensures Safe(s, ConvertAll(h, ts, to, os).g, t, slot)
    decreases |os|
  {
    if |os| > 0 {
      hide Safe, Converted;
      var n := |os| - 1;
      SafeConvertAll(s, h, t, slot, ts[..n], to, os[..n]);
      SafeConvert(s, ConvertAll(h, ts[..n], to, os[..n]).g, t, slot, os[n], ts[n], to);
    }
  }

  lemma SafePack(s: Gen, h: Gen, t: set<nat>, slot: nat, vs: seq<Val>)
    requires ScalarVals(vs) && Safe(s, h, t, slot)
    ensures var m := EmitPack(h, vs); Safe(s, m.g, t, slot) && !Points(m.v.o, t, slot)
  {
    hide Safe, LoadAll, ConvertAll, EmitDef, Points;
    var x := LoadAll(h, vs);
    var ts := ValTypes(vs);
    var y := ConvertAll(x.g, ts, PackType(ts), x.os);
    SafeLoadAll(s, h, t, slot, vs);
    SafeConvertAll(s, x.g, t, slot, ts, PackType(ts), x.os);
    SafeCompute(s, y.g, t, slot, Pack(y.g.regs, y.os));
  }

  lemma {:induction false} PackExprSafe(fs: Functions, e: Expr, env: Env, s: Gen, g: Gen, t: set<nat>, n: nat,
      key: Key, slot: nat) returns (t1: set<nat>)
    requires e.ArrayPack? && Apart(env, n) && Owns(env, key, slot) && key !in Written(e)
    requires Safe(s, g, t, slot) && |s.blocks| <= |g.blocks|
    ensures Kept(s, g, t, slot, Lower(fs, e, env, g), t1, key in Tokens(e))
    decreases e, 0
  {
    hide Apart, Safe, Adds, EmitPack, Points;
    t1 := t;
    var es := e.elements;
    if es.ConsExpr? && es.tail.NoExprs? {
      t1 := LowerSafe(fs, es.head, env, s, g, t, n, key, slot);
    } else if es.ConsExpr? {
      t1 := ArgsSafe(fs, es, env, s, g, t, n, key, slot);
      var a := LowerArgs(fs, es, env, g);
      if a.Args? && ScalarVals(a.vs) { SafePack(s, a.g, t1, slot, a.vs); }
    }
  }

  lemma ArgsBelow(fs: Functions, es: Exprs, env: Env, g: Gen)
    ensures var m := LowerArgs(fs, es, env, g); m.Args? ==>
              g.regs <= m.g.regs && forall i | 0 <= i < |m.vs| :: Below(m.vs[i].o, m.g.regs)
  {
    hide Frame, CheckArgs;
    ArgsFrame(fs, es, env, g);
  }

  /** Nothing is stored through the arguments of a call, but the call may write behind them. */
  lemma {:induction false} ArgsSafe(fs: Functions, es: Exprs, env: Env, s: Gen, g: Gen, t: set<nat>, n: nat,
      key: Key, slot: nat) returns (t1: set<nat>)
    requires Apart(env, n) && Owns(env, key, slot) && key !in WrittenIn(es)
    requires Safe(s, g, t, slot) && |s.blocks| <= |g.blocks|
    ensures var m := LowerArgs(fs, es, env, g);
            m.Args? ==> Safe(s, m.g, t1, slot) && Adds(t, g.regs, t1) &&
                        (key !in TokensOf(es) ==> NoValPoints(m.vs, t1, slot))
    decreases es, 1
  {
    hide Apart, Safe, Adds, Lower, Points;
    t1 := t;
    AddsNothing(t, g.regs);
    match es
    case NoExprs =>
    case ConsExpr(e, rest) =>
      var t2 := LowerSafe(fs, e, env, s, g, t, n, key, slot);
      LowerGrows(fs, e, env, g);
      var m := Lower(fs, e, env, g);
      if m.Made? {
        t1 := ArgsSafe(fs, rest, env, s, m.g, t2, n, key, slot);
        if LowerArgs(fs, rest, env, m.g).Args? {
          PointsStays(m.v.o, t2, slot, m.g.regs, t1);
          AddsTrans(t, g.regs, t2, m.g.regs, t1);
        }
      }
  }

  lemma {:induction false} CommaSafe(fs: Functions, es: Exprs, env: Env, s: Gen, g: Gen, t: set<nat>, n: nat,
      key: Key, slot: nat) returns (t1: set<nat>)
    requires Apart(env, n) && Owns(env, key, slot) && key !in WrittenIn(es)
    requires Safe(s, g, t, slot) && |s.blocks| <= |g.blocks|
    ensures Kept(s, g, t, slot, LowerComma(fs, es, env, g), t1, key in TokensOf(es))
    decreases es, 1
  {
    hide Apart, Safe, Adds, Lower, Points;
    t1 := t;
    AddsNothing(t, g.regs);
    match es
    case NoExprs =>
    case ConsExpr(e, rest) =>
      t1 := LowerSafe(fs, e, env, s, g, t, n, key, slot);
      LowerGrows(fs, e, env, g);
      var m := Lower(fs, e, env, g);
      if m.Made? && rest.ConsExpr? {
        var t2 := CommaSafe(fs, rest, env, s, m.g, t1, n, key, slot);
        if !LowerComma(fs, rest, env, m.g).Fail? { AddsTrans(t, g.regs, t1, m.g.regs, t2); }
        t1 := t2;
      }
  }

  /** The attribute does not occur in the target, so nothing is stored through its address. */
  lemma {:induction false} AssignmentSafe(fs: Functions, e: Expr, env: Env, s: Gen, g: Gen, t: set<nat>, n: nat,
      key: Key, slot: nat) returns (t1: set<nat>)
    requires e.Assign? && Apart(env, n) && Owns(env, key, slot) && key !in Written(e)
    requires Safe(s, g, t, slot) && |s.blocks| <= |g.blocks|
    ensures Kept(s, g, t, slot, Lower(fs, e, env, g), t1, key in Tokens(e))
    decreases e, 0
  {
    hide Apart, Safe, Adds, Taken, EmitBinary, EmitAssign, Points;
    WrittenOccurs(e.target);
    t1 := LowerSafe(fs, e.target, env, s, g, t, n, key, slot);
    LowerGrows(fs, e.target, env, g);
    var a := Lower(fs, e.target, env, g);
    if a.Made? {
      var t2 := LowerSafe(fs, e.source, env, s, a.g, t1, n, key, slot);
      LowerGrows(fs, e.source, env, a.g);
      var b := Lower(fs, e.source, env, a.g);
      if b.Made? {
        AddsTrans(t, g.regs, t1, a.g.regs, t2);
        PointsStays(a.v.o, t1, slot, a.g.regs, t2);
        t1 := t2;
        var v := if e.compound.None? then Made(b.g, b.v) else EmitBinary(b.g, e.compound.value, a.v, b.v);
        if e.compound.Some? {
          SafeBinary(s, b.g, t2, slot, e.compound.value, a.v, b.v);
          BinaryRegs(b.g, e.compound.value, a.v, b.v);
        }
        if v.Made? && IsOperand(v.v.ty) {
          var x := Taken(v.g, v.v);
          SafeTaken(s, v.g, t2, slot, v.v);
          TakenRegs(v.g, v.v);
          SafeAssign(s, x.g, t2, slot, a.v, x.o, v.v.ty);
        }
      }
    }
  }

  lemma {:induction false} CrementSafe(fs: Functions, e: Expr, env: Env, s: Gen, g: Gen, t: set<nat>, n: nat,
      key: Key, slot: nat) returns (t1: set<nat>)
    requires e.Crement? && Apart(env, n) && Owns(env, key, slot) && key !in Written(e)
    requires Safe(s, g, t, slot) && |s.blocks| <= |g.blocks|
    ensures Kept(s, g, t, slot, Lower(fs, e, env, g), t1, key in Tokens(e))
    decreases e, 0
  {
    hide Apart, Safe, Adds, Loaded, Converted, EmitDef, Emit, Points;
    WrittenOccurs(e.variable);
    t1 := LowerSafe(fs, e.variable, env, s, g, t, n, key, slot);
    LowerGrows(fs, e.variable, env, g);
    var a := Lower(fs, e.variable, env, g);
    if a.Made? && a.v.ptr && a.v.ty.IsScalar() && a.v.ty != Bool {
      var step := Const(if e.increment then 1 else -1);
      var x := Loaded(a.g, a.v);
      var one := Converted(x.g, step, Int32, a.v.ty);
      var i := Arith(one.g.regs, Plus, a.v.ty, x.o, one.o);
      var sum := EmitDef(one.g, i);
      SafeLoad(s, a.g, t1, slot, a.v);
      LoadedRegs(a.g, a.v);
      SafeConvert(s, x.g, t1, slot, step, Int32, a.v.ty);
      ConvertedRegs(x.g, step, Int32, a.v.ty);
      SafeCompute(s, one.g, t1, slot, i);
      SafeStore(s, sum.g, t1, slot, a.v.o, sum.o);
    }
  }

  lemma {:induction false} LogicalSafe(fs: Functions, e: Expr, env: Env, s: Gen, g: Gen, t: set<nat>, n: nat,
      key: Key, slot: nat) returns (t1: set<nat>)
    requires e.Logical? && Apart(env, n) && Owns(env, key, slot) && key !in Written(e)
    requires Safe(s, g, t, slot) && |s.blocks| <= |g.blocks|
    ensures Kept(s, g, t, slot, LowerLogical(fs, e, env, g), t1, key in Tokens(e))
    decreases e, 0
  {
    hide Apart, Safe, Adds, Loaded, Tested, EmitDef, Emit, Lower, Points, Guarded;
    var rhs := |g.blocks|;
    var ret := rhs + 1;
    var g0 := NewBlock(NewBlock(g, LogicalRhs), LogicalReturn);
    SafeBlock(s, g, t, slot, LogicalRhs);
    SafeBlock(s, NewBlock(g, LogicalRhs), t, slot, LogicalReturn);
    t1 := LowerSafe(fs, e.first, env, s, g0, t, n, key, slot);
    LowerGrows(fs, e.first, env, g0);
    var a := Lower(fs, e.first, env, g0);
    if a.Made? && a.v.ty.IsScalar() {
      var la := Loaded(a.g, a.v);
      var ta := Tested(la.g, la.o, a.v.ty);
      var br := if e.isAnd then CondBr(ta.o, rhs, ret) else CondBr(ta.o, ret, rhs);
      var g1 := Emit(ta.g, br);
      TestStep(s, a.g, t1, slot, a.v, br);
      SafeAt(s, g1, t1, slot, rhs);
      var t2 := LowerSafe(fs, e.second, env, s, At(g1, rhs), t1, n, key, slot);
      LowerGrows(fs, e.second, env, At(g1, rhs));
      var b := Lower(fs, e.second, env, At(g1, rhs));
      if b.Made? && b.v.ty.IsScalar() {
        AddsTrans(t, g.regs, t1, g1.regs, t2);
        var lb := Loaded(b.g, b.v);
        var tb := Tested(lb.g, lb.o, b.v.ty);
        var g2 := Emit(tb.g, Br(ret));
        TestStep(s, b.g, t2, slot, b.v, Br(ret));
        PointsStays(ta.o, t1, slot, g1.regs, t2);
        SafeAt(s, g2, t2, slot, ret);
        var phi := Phi(g2.regs, [Arm(a.g.ip, ta.o), Arm(b.g.ip, tb.o)]);
        PhiGuarded(phi, t2, slot, g2.regs + 1, false);
        var t3 := SafePass(s, At(g2, ret), t2, slot, phi, false);
        AddsTrans(t, g.regs, t2, g2.regs, t3);
        t1 := t3;
      }
    }
  }

  /** Load a value, test it and branch; the outcome is a number in a register of its own. */
  lemma TestStep(s: Gen, h: Gen, t: set<nat>, slot: nat, v: Val, br: Instr)
    requires Safe(s, h, t, slot) && (br.CondBr? || br.Br?)
    ensures var l := Loaded(h, v);
            var x := Tested(l.g, l.o, v.ty);
            Safe(s, Emit(x.g, br), t, slot) && !Points(x.o, t, slot) && Below(x.o, x.g.regs) && h.regs <= x.g.regs
  {
    hide Safe, Loaded, Emit;
    var l := Loaded(h, v);
    var x := Tested(l.g, l.o, v.ty);
    SafeLoad(s, h, t, slot, v);
    LoadedRegs(h, v);
    SafeTest(s, l.g, t, slot, l.o, v.ty);
    SafeEmit(s, x.g, t, slot, br);
  }

  lemma {:induction false} TernarySafe(fs: Functions, e: Expr, env: Env, s: Gen, g: Gen, t: set<nat>, n: nat,
      key: Key, slot: nat) returns (t1: set<nat>)
    requires e.Ternary? && Apart(env, n) && Owns(env, key, slot) && key !in Written(e)
    requires Safe(s, g, t, slot) && |s.blocks| <= |g.blocks|
    ensures Kept(s, g, t, slot, LowerTernary(fs, e, env, g), t1, key in Tokens(e))
    decreases e, 0, 1
  {
    hide Apart, Safe, Adds, Loaded, Tested, EmitDef, Emit, Lower, LowerBranches, Points;
    var onTrue := |g.blocks|;
    var g0 := NewBlock(NewBlock(NewBlock(g, TernaryTrue), TernaryFalse), TernaryReturn);
    SafeBlock(s, g, t, slot, TernaryTrue);
    SafeBlock(s, NewBlock(g, TernaryTrue), t, slot, TernaryFalse);
    SafeBlock(s, NewBlock(NewBlock(g, TernaryTrue), TernaryFalse), t, slot, TernaryReturn);
    t1 := LowerSafe(fs, e.cond, env, s, g0, t, n, key, slot);
    LowerGrows(fs, e.cond, env, g0);
    var c := Lower(fs, e.cond, env, g0);
    if c.Made? && c.v.ty.IsScalar() {
      var l := Loaded(c.g, c.v);
      var x := Tested(l.g, l.o, c.v.ty);
      var br := CondBr(x.o, onTrue, onTrue + 1);
      TestStep(s, c.g, t1, slot, c.v, br);
      var t2 := BranchesSafe(fs, e, env, s, Emit(x.g, br), t1, n, key, slot, onTrue, c.v);
      if !LowerBranches(fs, e, env, onTrue, c.v, Emit(x.g, br)).Fail? {
        AddsTrans(t, g.regs, t1, x.g.regs, t2);
      }
      t1 := t2;
    }
  }

  lemma BranchEnd(fs: Functions, e: Expr, env: Env, g: Gen, b: nat)
    requires b < |g.blocks|
    ensures var m := Lower(fs, e, env, At(g, b)); m.Made? ==> m.g.ip == b || |g.blocks| <= m.g.ip
  {
    hide Frame, Check;
    LowerFrame(fs, e, env, At(g, b));
    var m := Lower(fs, e, env, At(g, b));
    if m.Made? { EndBlock(g, b, m.g); }
  }

  lemma {:induction false} BranchesSafe(fs: Functions, e: Expr, env: Env, s: Gen, g: Gen, t: set<nat>, n: nat,
      key: Key, slot: nat, onTrue: nat, cond: Val) returns (t1: set<nat>)
    requires e.Ternary? && Apart(env, n) && Owns(env, key, slot) && key !in Written(e)
    requires Safe(s, g, t, slot) && |s.blocks| <= onTrue && onTrue + 2 < |g.blocks|
    requires Below(cond.o, g.regs) && (Points(cond.o, t, slot) ==> key in Tokens(e.cond))
    ensures Kept(s, g, t, slot, LowerBranches(fs, e, env, onTrue, cond, g), t1, key in Tokens(e))
    decreases e, 0, 0
  {
    hide Apart, Safe, Adds, Emit, JoinTernary, Lower, Points;
    var onFalse := onTrue + 1;
    var ret := onTrue + 2;
    var g1 := At(g, onTrue);
    var a := if e.onTrue.Some? then Lower(fs, e.onTrue.value, env, g1) else Made(g1, cond);
    t1 := t;
    AddsNothing(t, g.regs);
    SafeAt(s, g, t, slot, onTrue);
    if e.onTrue.Some? {
      t1 := LowerSafe(fs, e.onTrue.value, env, s, g1, t, n, key, slot);
      LowerGrows(fs, e.onTrue.value, env, g1);
      BranchEnd(fs, e.onTrue.value, env, g, onTrue);
    }
    if a.Made? {
      var g2 := Emit(a.g, Br(ret));
      SafeEmit(s, a.g, t1, slot, Br(ret));
      SafeAt(s, g2, t1, slot, onFalse);
      var t2 := LowerSafe(fs, e.onFalse, env, s, At(g2, onFalse), t1, n, key, slot);
      LowerGrows(fs, e.onFalse, env, At(g2, onFalse));
      BranchEnd(fs, e.onFalse, env, g2, onFalse);
      var b := Lower(fs, e.onFalse, env, At(g2, onFalse));
      if b.Made? {
        AddsTrans(t, g.regs, t1, a.g.regs, t2);
        PointsStays(a.v.o, t1, slot, a.g.regs, t2);
        var g3 := Emit(b.g, Br(ret));
        SafeEmit(s, b.g, t2, slot, Br(ret));
        t1 := SafeJoin(s, g3, t2, slot, ret, a.g.ip, a.v, b.g.ip, b.v);
        if !JoinTernary(ret, a.g.ip, a.v, b.g.ip, b.v, g3).Fail? { AddsTrans(t, g.regs, t2, g3.regs, t1); }
      }
    }
  }

  // ---------------------------------------------------------------------------------------
  // Statements

  /** What a statement keeps. */
  ghost predicate StmtKept(s: Gen, g: Gen, t: set<nat>, slot: nat, r: Option<Gen>, t1: set<nat>) {
    r.Some? ==> Safe(s, r.value, t1, slot) && Adds(t, g.regs, t1) && g.regs <= r.value.regs
  }

  lemma {:induction false} StmtSafe(fs: Functions, st: Stmt, env: Env, x: Option<Exits>, s: Gen, g: Gen, t: set<nat>,
      n: nat, key: Key, slot: nat) returns (t1: set<nat>)
    requires Apart(env, n) && Owns(env, key, slot) && key !in WrittenBy(st)
    requires Safe(s, g, t, slot) && |s.blocks| <= |g.blocks|
    ensures StmtKept(s, g, t, slot, LowerStmt(fs, st, env, x, g), t1)
    decreases st, 1
  {
    hide Apart, Safe, Adds, Emit, LowerIf, LowerLoop, Lower, Taken, EmitAssign;
    t1 := t;
    AddsNothing(t, g.regs);
    PushApart(env, n, key, slot);
    match st
    case ExprStmt(e) =>
      t1 := LowerSafe(fs, e, env, s, g, t, n, key, slot);
      LowerGrows(fs, e, env, g);
    case Declare(_, _, _) => t1 := DeclareSafe(fs, st, env, x, s, g, t, n, key, slot);
    case Block(body) => t1 := StmtsSafe(fs, body, Push(env), x, s, g, t, n, key, slot);
    case StatementList(ss) => t1 := StmtsSafe(fs, ss, env, x, s, g, t, n, key, slot);
    case If(_, _, _) => t1 := IfSafe(fs, st, env, x, s, g, t, n, key, slot);
    case Loop(_, _, _) => t1 := LoopSafe(fs, st, env, x, s, g, t, n, key, slot);
    case Jump(_) => JumpSafe(fs, st, env, x, s, g, t, slot);
  }

  lemma JumpSafe(fs: Functions, st: Stmt, env: Env, x: Option<Exits>, s: Gen, g: Gen, t: set<nat>, slot: nat)
    requires st.Jump? && Safe(s, g, t, slot)
    ensures StmtKept(s, g, t, slot, LowerStmt(fs, st, env, x, g), t)
  {
    hide Safe, Emit;
    if st.keyword == Return || x.Some? {
      var i := match st.keyword
        case Return => Ret
        case Break => Br(x.value.onBreak)
        case Continue => Br(x.value.onContinue);
      SafeEmit(s, g, t, slot, i);
      SafeBlock(s, Emit(g, i), t, slot, Null);
      SafeAt(s, NewBlock(Emit(g, i), Null), t, slot, |g.blocks|);
    }
  }

  lemma DeclareSafe(fs: Functions, st: Stmt, env: Env, x: Option<Exits>, s: Gen, g: Gen, t: set<nat>,
      n: nat, key: Key, slot: nat) returns (t1: set<nat>)
    requires st.Declare? && Apart(env, n) && Owns(env, key, slot) && key !in WrittenBy(st)
    requires Safe(s, g, t, slot) && |s.blocks| <= |g.blocks|
    ensures StmtKept(s, g, t, slot, LowerStmt(fs, st, env, x, g), t1)
  {
    hide Safe, Adds, Lower, Taken, EmitAssign;
    t1 := t;
    AddsNothing(t, g.regs);
    if st.initial.Some? {
      var env1 := Declared(env, st.ty, st.name);
      var target := Val(Slot(env.slots), st.ty, true);
      DeclaredApart(env, st.ty, st.name, n);
      t1 := LowerSafe(fs, st.initial.value, env1, s, g, t, n, key, slot);
      LowerGrows(fs, st.initial.value, env1, g);
      var m := Lower(fs, st.initial.value, env1, g);
      if m.Made? && IsOperand(m.v.ty) {
        var l := Taken(m.g, m.v);
        SafeTaken(s, m.g, t1, slot, m.v);
        TakenRegs(m.g, m.v);
        SafeAssign(s, l.g, t1, slot, target, l.o, m.v.ty);
        AssignRegs(l.g, target, l.o, m.v.ty);
      }
    }
  }

  lemma AssignRegs(h: Gen, target: Val, o: Operand, ty: Ty)
    ensures var r := EmitAssign(h, target, o, ty); r.Some? ==> h.regs <= r.value.regs
  {
    hide EmitBinary, EmitCells, Promoted;
    BinaryRegs(h, NotEquals, Val(Const(0), Int32, false), Val(o, ty, false));
    if target.ty.IsArray() {
      var from := Promotion(ty, target.ty);
      var p := Promoted(h, o, ty, from);
      PromotedGrows(h, o, ty, from);
      CellsRegs(p.g, target.o, target.ty.elem, p.o, from, target.ty.size);
    }
  }

  lemma {:induction false} CellsRegs(h: Gen, target: Operand, elem: Ty, o: Operand, ty: Ty, size: nat)
    ensures h.regs <= EmitCells(h, target, elem, o, ty, size).regs
    decreases size
  {
    hide Emit;
    if size > 0 { CellsRegs(h, target, elem, o, ty, size - 1); }
  }

  lemma {:induction false} StmtsSafe(fs: Functions, ss: Stmts, env: Env, x: Option<Exits>, s: Gen, g: Gen, t: set<nat>,
      n: nat, key: Key, slot: nat) returns (t1: set<nat>)
    requires Apart(env, n) && Owns(env, key, slot) && key !in WrittenByAll(ss)
    requires Safe(s, g, t, slot) && |s.blocks| <= |g.blocks|
    ensures StmtKept(s, g, t, slot, LowerStmts(fs, ss, env, x, g), t1)
    decreases ss, 1
  {
    hide Apart, Safe, Adds, LowerStmt, After;
    t1 := t;
    AddsNothing(t, g.regs);
    match ss
    case NoStmts =>
    case ConsStmt(st, rest) =>
      var t2 := StmtSafe(fs, st, env, x, s, g, t, n, key, slot);
      var r := LowerStmt(fs, st, env, x, g);
      AfterApart(st, env, n);
      AfterOwns(env, After(st, env), key, slot);
      if r.Some? {
        t1 := StmtsSafe(fs, rest, After(st, env), x, s, r.value, t2, n, key, slot);
        if LowerStmts(fs, rest, After(st, env), x, r.value).Some? { AddsTrans(t, g.regs, t2, r.value.regs, t1); }
      }
  }

  lemma AfterOwns(env: Env, env1: Env, key: Key, slot: nat)
    requires Owns(env, key, slot) && SameTokens(env, env1)
    ensures Owns(env1, key, slot)
  {
  }

  lemma {:induction false} ConditionSafe(fs: Functions, c: Expr, env: Env, ifTrue: nat, ifFalse: nat, s: Gen, g: Gen,
      t: set<nat>, n: nat, key: Key, slot: nat) returns (t1: set<nat>)
    requires Apart(env, n) && Owns(env, key, slot) && key !in Written(c)
    requires Safe(s, g, t, slot) && |s.blocks| <= |g.blocks|
    ensures StmtKept(s, g, t, slot, LowerCondition(fs, c, env, ifTrue, ifFalse, g), t1)
    decreases c, 2
  {
    hide Apart, Safe, Adds, Lower, Loaded, Tested, Emit;
    t1 := LowerSafe(fs, c, env, s, g, t, n, key, slot);
    LowerGrows(fs, c, env, g);
    var m := Lower(fs, c, env, g);
    if m.Made? && m.v.ty.IsScalar() {
      var l := Loaded(m.g, m.v);
      TestStep(s, m.g, t1, slot, m.v, CondBr(Tested(l.g, l.o, m.v.ty).o, ifTrue, ifFalse));
    }
  }

  lemma {:induction false} IfSafe(fs: Functions, st: Stmt, env: Env, x: Option<Exits>, s: Gen, g: Gen, t: set<nat>,
      n: nat, key: Key, slot: nat) returns (t1: set<nat>)
    requires st.If? && Apart(env, n) && Owns(env, key, slot) && key !in WrittenBy(st)
    requires Safe(s, g, t, slot) && |s.blocks| <= |g.blocks|
    ensures StmtKept(s, g, t, slot, LowerIf(fs, st, env, x, g), t1)
    decreases st, 0
  {
    hide Apart, Safe, Adds, Emit, LowerCondition, LowerStmts, AfterList;
    var post := |g.blocks|;
    var thn := post + 1;
    var els := if st.onFalse.Some? then post + 2 else post;
    var g0 := NewBlock(NewBlock(g, PostIf), Then);
    var g1 := if st.onFalse.Some? then NewBlock(g0, Else) else g0;
    SafeBlock(s, g, t, slot, PostIf);
    SafeBlock(s, NewBlock(g, PostIf), t, slot, Then);
    SafeBlock(s, g0, t, slot, Else);
    PushApart(env, n, key, slot);
    t1 := ConditionSafe(fs, st.cond, env, thn, els, s, g1, t, n, key, slot);
    var c := LowerCondition(fs, st.cond, env, thn, els, g1);
    if c.Some? {
      SafeAt(s, c.value, t1, slot, thn);
      var t2 := StmtsSafe(fs, st.onTrue, Push(env), x, s, At(c.value, thn), t1, n, key, slot);
      var a := LowerStmts(fs, st.onTrue, Push(env), x, At(c.value, thn));
      if a.Some? {
        AddsTrans(t, g.regs, t1, c.value.regs, t2);
        t1 := t2;
        var g2 := Emit(a.value, Br(post));
        SafeEmit(s, a.value, t2, slot, Br(post));
        SafeAt(s, g2, t2, slot, post);
        if st.onFalse.Some? {
          AfterListApart(st.onTrue, Push(env), n);
          var env1 := env.(slots := AfterList(st.onTrue, Push(env)).slots);
          MoreSlots(env, env1, n, key, slot);
          SafeAt(s, g2, t2, slot, els);
          var t3 := StmtsSafe(fs, st.onFalse.value, Push(env1), x, s, At(g2, els), t2, n, key, slot);
          var b := LowerStmts(fs, st.onFalse.value, Push(env1), x, At(g2, els));
          if b.Some? {
            AddsTrans(t, g.regs, t2, g2.regs, t3);
            t1 := t3;
            SafeEmit(s, b.value, t3, slot, Br(post));
            SafeAt(s, Emit(b.value, Br(post)), t3, slot, post);
          }
        }
      }
    }
  }

  ghost predicate HeadKept(s: Gen, g: Gen, t: set<nat>, slot: nat, r: LoopHead, t1: set<nat>) {
    r.LoopHead? ==> Safe(s, r.g, t1, slot) && Adds(t, g.regs, t1) && g.regs <= r.g.regs
  }

  lemma {:induction false} HeadSafe(fs: Functions, st: Stmt, env: Env, x: Option<Exits>, cond: nat, body: nat, s: Gen,
      g: Gen, t: set<nat>, n: nat, key: Key, slot: nat) returns (t1: set<nat>)
    requires st.Loop? && Apart(env, n) && Owns(env, key, slot) && key !in WrittenBy(st)
    requires Safe(s, g, t, slot) && |s.blocks| <= |g.blocks| && cond < |g.blocks| && body < |g.blocks|
    ensures HeadKept(s, g, t, slot, LowerHead(fs, st, env, x, cond, body, g), t1)
    decreases st, 0, 0
  {
    hide Apart, Safe, Adds, Emit, Lower, LowerStmts, AfterList;
    t1 := t;
    AddsNothing(t, g.regs);
    match st.kind
    case While => SafeEmit(s, g, t, slot, Br(cond));
    case Do => SafeEmit(s, g, t, slot, Br(body));
    case For(init, iteration) =>
      PushApart(env, n, key, slot);
      t1 := StmtsSafe(fs, init, Push(env), x, s, g, t, n, key, slot);
      var i := LowerStmts(fs, init, Push(env), x, g);
      if i.Some? {
        var g1 := Emit(i.value, Br(cond));
        SafeEmit(s, i.value, t1, slot, Br(cond));
        if iteration.Some? {
          var iter := |g1.blocks|;
          var g2 := At(NewBlock(g1, LoopIteration), iter);
          var env1 := LoopEnv(st.kind, env);
          SafeBlock(s, g1, t1, slot, LoopIteration);
          SafeAt(s, NewBlock(g1, LoopIteration), t1, slot, iter);
          LoopEnvApart(st.kind, env, n);
          AfterOwns(env, env1, key, slot);
          var t2 := LowerSafe(fs, iteration.value, env1, s, g2, t1, n, key, slot);
          LowerGrows(fs, iteration.value, env1, g2);
          var m := Lower(fs, iteration.value, env1, g2);
          if !m.Fail? {
            AddsTrans(t, g.regs, t1, g2.regs, t2);
            t1 := t2;
            SafeEmit(s, m.g, t2, slot, Br(cond));
          }
        }
      }
  }

  lemma {:induction false} LoopSafe(fs: Functions, st: Stmt, env: Env, x: Option<Exits>, s: Gen, g: Gen, t: set<nat>,
      n: nat, key: Key, slot: nat) returns (t1: set<nat>)
    requires st.Loop? && Apart(env, n) && Owns(env, key, slot) && key !in WrittenBy(st)
    requires Safe(s, g, t, slot) && |s.blocks| <= |g.blocks|
    ensures StmtKept(s, g, t, slot, LowerLoop(fs, st, env, x, g), t1)
    decreases st, 0, 1
  {
    hide Apart, Safe, Adds, Emit, LowerCondition, LowerHead, LowerStmts, LoopEnv;
    var post := |g.blocks|;
    var cond := post + 1;
    var body := post + 2;
    var env1 := LoopEnv(st.kind, env);
    SafeBlock(s, g, t, slot, PostLoop);
    SafeBlock(s, NewBlock(g, PostLoop), t, slot, LoopCondition);
    SafeBlock(s, NewBlock(NewBlock(g, PostLoop), LoopCondition), t, slot, LoopBody);
    t1 := HeadSafe(fs, st, env, x, cond, body, s, LoopBlocks(g), t, n, key, slot);
    var h := LowerHead(fs, st, env, x, cond, body, LoopBlocks(g));
    if h.LoopHead? {
      LoopEnvApart(st.kind, env, n);
      AfterOwns(env, env1, key, slot);
      PushApart(env1, n, key, slot);
      SafeAt(s, h.g, t1, slot, body);
      var xs := Some(Exits(post, h.next));
      var t2 := StmtsSafe(fs, st.body, Push(env1), xs, s, At(h.g, body), t1, n, key, slot);
      var b := LowerStmts(fs, st.body, Push(env1), xs, At(h.g, body));
      if b.Some? {
        AddsTrans(t, g.regs, t1, h.g.regs, t2);
        var g2 := Emit(b.value, Br(h.next));
        SafeEmit(s, b.value, t2, slot, Br(h.next));
        SafeAt(s, g2, t2, slot, cond);
        var t3 := ConditionSafe(fs, st.cond, env1, body, post, s, At(g2, cond), t2, n, key, slot);
        var c := LowerCondition(fs, st.cond, env1, body, post, At(g2, cond));
        t1 := t3;
        if c.Some? {
          AddsTrans(t, g.regs, t2, g2.regs, t3);
          SafeAt(s, c.value, t3, slot, post);
        }
      }
    }
  }

  // ---------------------------------------------------------------------------------------
  // Runs

  /** Only registers of `t` point to the slot. */
  ghost predicate Tracked(regs: Registers, t: set<nat>, slot: nat) {
    forall r | r in regs && regs[r].Ptr? && regs[r].a.slot == slot :: r in t
  }

  lemma FetchPoints(regs: Registers, o: Operand, t: set<nat>, slot: nat)
    requires Tracked(regs, t, slot)
    ensures var v := Fetch(regs, o); v.Some? && v.value.Ptr? && v.value.a.slot == slot ==> Points(o, t, slot)
  {
  }

  lemma {:induction false} ArmFound(arms: seq<Arm>, pred: nat)
    ensures var o := FindArm(arms, pred);
            o.Some? ==> exists j :: 0 <= j < |arms| && arms[j].val == o.value
  {
    if |arms| > 0 {
      if arms[0].pred == pred {
        assert arms[0].val == FindArm(arms, pred).value;
      } else {
        ArmFound(arms[1..], pred);
        var o := FindArm(arms[1..], pred);
        if o.Some? {
          var j :| 0 <= j < |arms[1..]| && arms[1..][j].val == o.value;
          assert arms[j + 1].val == o.value;
        }
      }
    }
  }

  /** A call that is given no pointer to the slot leaves it alone. */
  lemma CallGuarded(m: Machine, c: Config, sig: Signature, args: seq<Operand>, t: set<nat>, slot: nat)
    requires Tracked(c.regs, t, slot) && NonePoints(args, t, slot)
    requires |sig.params| == |args| && forall o | o in args :: Fetch(c.regs, o).Some?
    ensures var r := CallEffect(m.cx.ops, sig, ValuesOf(c.regs, args), c.st);
            !r.v.Ptr? && SameSlot(c.st.mem, r.st.mem, slot)
  {
    hide Points, SameSlot, PutBehind, Behind, Tracked;
    var vs := ValuesOf(c.regs, args);
    forall i | 0 <= i < |vs| ensures !PointsTo(vs[i], slot) {
      FetchPoints(c.regs, args[i], t, slot);
    }
    var called := m.cx.ops.call(sig, vs, Behind(sig.params, vs, c.st.mem), c.st.ext);
    PutElsewhere(sig.params, vs, called.cells, c.st.mem, |vs|, slot);
  }

  /** One step of a guarded instruction. */
  lemma StepGuarded(m: Machine, c: Config, i: Instr, t: set<nat>, slot: nat, k: nat)
    requires Tracked(c.regs, t, slot) && Guarded(i, t, slot, k)
    ensures var p := Execute(m, c, i);
            p.Running? ==> Tracked(p.c.regs, t, slot) && SameSlot(c.st.mem, p.c.st.mem, slot)
  {
    hide Points, CallEffect;
    match i
    case Invoke(_, sig, args) =>
      if |sig.params| == |args| && forall o | o in args :: Fetch(c.regs, o).Some? {
        CallGuarded(m, c, sig, args, t, slot);
      }
    case Store(a, _) => FetchPoints(c.regs, a, t, slot);
    case Gep(_, b, _) => FetchPoints(c.regs, b, t, slot);
    case Phi(_, arms) =>
      ArmFound(arms, c.prev);
      var o := FindArm(arms, c.prev);
      if o.Some? { FetchPoints(c.regs, o.value, t, slot); }
    case _ =>
  }

  /** Generated code goes on in generated code. */
  ghost predicate Stays(s: Gen, code: seq<BasicBlock>) {
    forall b, k, d | 0 <= b < |code| && 0 <= k < |code[b].code| && Since(s, b, k) && d in Targets(code[b].code[k]) ::
      |s.blocks| <= d
  }

  /** However long guarded code runs, the slot keeps its contents. */
  lemma {:induction false} RunGuarded(m: Machine, c: Config, n: nat, s: Gen, h: Gen, t: set<nat>, slot: nat)
    requires m.code == h.blocks && Safe(s, h, t, slot) && Stays(s, h.blocks)
    requires Tracked(c.regs, t, slot) && Since(s, c.block, c.pc)
    ensures var p := Run(m, c, n);
            && (p.Running? ==> SameSlot(c.st.mem, p.c.st.mem, slot))
            && (p.Halted? ==> SameSlot(c.st.mem, p.st.mem, slot))
    decreases n
  {
    hide Execute, Tracked, SameSlot, Guarded;
    SameAlways(slot);
    if n > 0 && Step(m, c) != Stuck {
      var i := m.code[c.block].code[c.pc];
      StepGuarded(m, c, i, t, slot, h.regs);
      GoesOn(m, c, i);
      HaltKeeps(m, c, i);
      if Step(m, c).Running? { RunGuarded(m, Step(m, c).c, n - 1, s, h, t, slot); }
    }
  }

  lemma HaltKeeps(m: Machine, c: Config, i: Instr)
    ensures Execute(m, c, i).Halted? ==> Execute(m, c, i).st == c.st
  {
  }

  lemma TreeStays(fs: Functions, root: Stmts, env: Env, g: Gen, t: Gen)
    requires LowerTree(fs, root, env, g) == Some(t) && Plain(Code(g, g.ip))
    ensures Stays(g, t.blocks)
  {
    hide LowerStmt, Plain, Closed, Out;
    StmtTidy(fs, Block(root), env, None, g);
    var h := LowerStmt(fs, Block(root), env, None, g).value;
    forall b, k, d | 0 <= b < |t.blocks| && 0 <= k < |t.blocks[b].code| && Since(g, b, k) &&
                     d in Targets(t.blocks[b].code[k])
      ensures |g.blocks| <= d
    {
      assert InRegion(g, h, b) && BlockFine(g, h, None, {}, b);
      if b == h.ip {
        PlainTargets(Code(h, b), Ret, k);
      } else {
        ClosedTargets(Code(h, b), k);
      }
    }
  }

  lemma PlainTargets(code: seq<Instr>, i: Instr, k: nat)
    requires Plain(code) && k <= |code|
    ensures Targets((code + [i])[k]) <= Targets(i)
  {
  }

  lemma ClosedTargets(code: seq<Instr>, k: nat)
    requires Closed(code) && k < |code|
    ensures Targets(code[k]) <= Out(code)
  {
    if k < |code| - 1 { assert !IsTerminator(code[..|code| - 1][k]); }
  }

  lemma NothingSince(s: Gen, slot: nat)
    ensures Safe(s, s, {}, slot)
  {
  }

  /** In every run of the generated code, at every step and at the return, a slot whose contents have
      changed belongs to an attribute that is flagged as written; runs that never end are included. */
  lemma StoresAreFlagged(m: Machine, root: Stmts, env: Env, g: Gen, t: Gen, c: Config, steps: nat, n: nat, key: Key,
      slot: nat)
    requires LowerTree(m.cx.functions, root, env, g) == Some(t) && m.code == t.blocks
    requires Stands(g, c) && Plain(Code(g, g.ip)) && NoPointer(c.regs, slot)
    requires Apart(env, n) && Owns(env, key, slot)
    ensures var p := Run(m, c, steps);
            && (p.Running? && !SameSlot(c.st.mem, p.c.st.mem, slot) ==> key in WrittenByAll(root))
            && (p.Halted? && !SameSlot(c.st.mem, p.st.mem, slot) ==> key in WrittenByAll(root))
  {
    hide Apart, Owns, Safe, SameSlot, LowerStmt, Plain, Emit, Stays, Tracked;
    if key !in WrittenByAll(root) {
      NothingSince(g, slot);
      var tracked := StmtSafe(m.cx.functions, Block(root), env, None, g, g, {}, n, key, slot);
      var h := LowerStmt(m.cx.functions, Block(root), env, None, g).value;
      SafeEmit(g, h, tracked, slot, Ret);
      TreeStays(m.cx.functions, root, env, g, t);
      assert Tracked(c.regs, tracked, slot) by { NoneTracked(c.regs, tracked, slot); }
      RunGuarded(m, c, steps, g, t, tracked, slot);
    }
  }

  lemma NoneTracked(regs: Registers, t: set<nat>, slot: nat)
    requires NoPointer(regs, slot)
    ensures Tracked(regs, t, slot)
  {
  }
}
