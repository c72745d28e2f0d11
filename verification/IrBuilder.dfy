/**
The instruction builder: an insert point moving over the blocks of a function. The conversion and
operator helpers that emit through it are proved to emit what `Lowering` says.
*/
module IrBuilder {
  import opened Types
  import opened Overloads
  import opened Semantics
  import opened Cfg
  import opened Lowering
  import opened Frames

  /** One element is computed as a scalar is. */
  lemma OneElement(g: Gen, op: BinOp, t: Ty, x: Operand, lt: Ty, y: Operand, rt: Ty)
    requires lt.IsScalar() && rt.IsScalar()
    ensures var e := EmitArith(g, op, t, x, lt, y, rt);
            EmitElements(g, op, t, x, lt, y, rt, 1) == EmittedAll(e.g, [e.o])
  {
    hide EmitArith, EmitElement;
    ScalarElement(g, x, lt);
    ScalarElement(g, y, rt);
    NoElements(g, op, t, x, lt, y, rt);
    NextElement(g, op, t, x, lt, y, rt, 0);
  }

  /** Casting the arguments from i on begins with argument i. */
  lemma CastAllFrom(g: Gen, params: seq<Parameter>, ts: seq<ArgTy>, os: seq<Operand>, i: nat)
    requires |params| == |ts| == |os| && i < |os|
    ensures var x := EmitArg(g, params[i].ty, ts[i], os[i]);
            var rest := CastAll(x.g, params[i + 1..], ts[i + 1..], os[i + 1..]);
            CastAll(g, params[i..], ts[i..], os[i..]) == EmittedAll(rest.g, [x.o] + rest.os)
  {
    hide EmitArg;
    assert params[i..][1..] == params[i + 1..] && ts[i..][1..] == ts[i + 1..] && os[i..][1..] == os[i + 1..];
  }

  lemma NextCell(r: nat, o: Operand, from: Ty, to: Ty, i: nat)
    ensures var c := CellsCode(r, o, from, to, i);
            CellsCode(r, o, from, to, i + 1) ==
            CoercionAll(c.code + [Element(c.regs, o, i), Conv(c.regs + 1, from, to, Reg(c.regs))],
                        c.os + [Reg(c.regs + 1)], c.regs + 2)
  {
  }

  lemma NextCast(g: Gen, o: Operand, from: Ty, to: Ty, i: nat)
    ensures var es := EmitCastCells(g, o, from, to, i);
            var l := EmitDef(es.g, Element(es.g.regs, o, i));
            var c := EmitDef(l.g, Conv(l.g.regs, from, to, l.o));
            EmitCastCells(g, o, from, to, i + 1) == EmittedAll(c.g, es.os + [c.o])
  {
    hide EmitDef;
  }

  lemma NoElements(g: Gen, op: BinOp, t: Ty, x: Operand, lt: Ty, y: Operand, rt: Ty)
    ensures EmitElements(g, op, t, x, lt, y, rt, 0) == EmittedAll(g, [])
  {
  }

  lemma NextElement(g: Gen, op: BinOp, t: Ty, x: Operand, lt: Ty, y: Operand, rt: Ty, i: nat)
    ensures var es := EmitElements(g, op, t, x, lt, y, rt, i);
            var a := EmitElement(es.g, x, lt, i);
            var b := EmitElement(a.g, y, rt, i);
            var e := EmitArith(b.g, op, t, a.o, ElementOf(lt), b.o, ElementOf(rt));
            EmitElements(g, op, t, x, lt, y, rt, i + 1) == EmittedAll(e.g, es.os + [e.o])
  {
    hide EmitElement, EmitArith;
  }

  lemma ScalarElement(g: Gen, o: Operand, ty: Ty)
    requires ty.IsScalar()
    ensures EmitElement(g, o, ty, 0) == Emitted(g, o) && ElementOf(ty) == ty
  {
  }

  lemma ZipIs(g: Gen, op: BinOp, t: Ty, x: Operand, lt: Ty, y: Operand, rt: Ty, size: nat)
    ensures var es := EmitElements(g, op, t, x, lt, y, rt, size);
            EmitZip(g, op, t, x, lt, y, rt, size) ==
              if op.IsRelational() then EmitReduce(es.g, op, es.os) else EmitDef(es.g, Pack(es.g.regs, es.os))
  {
  }

  lemma SizeIs(op: BinOp, lt: Ty, rt: Ty)
    requires OperandType(op, lt, rt).Some?
    ensures IsElementwise(op, lt, rt) ==> ZipSize(lt, rt) > 1
    ensures !IsElementwise(op, lt, rt) ==> ZipSize(lt, rt) == 1 && lt.IsScalar() && rt.IsScalar()
    ensures IsElementwise(op, lt, rt) ==> (op.IsRelational() <==> op == Equals || op == NotEquals)
  {
  }

  class InstructionBuilder {
    var blocks: seq<BasicBlock>
    /** The block instructions go to, and how many of its instructions stay behind the insert point. */
    var ip: nat
    var behind: nat
    var regs: nat

    /** New instructions go to the end of a block of the function. */
    ghost predicate Valid()
      reads this
    {
      ip < |blocks| && behind == 0
    }

    ghost function Gen(): Gen
      requires ip < |blocks|
      reads this
    {
      Builder(blocks, ip, regs)
    }

    constructor ()
      ensures Valid() && Gen() == Builder([BasicBlock(Entry, [])], 0, 0)
    {
      blocks := [BasicBlock(Entry, [])];
      ip, behind, regs := 0, 0, 0;
    }

    /** Put an instruction at the insert point. */
    method Create(i: Instr)
      requires ip < |blocks| && behind <= |blocks[ip].code|
      modifies this`blocks
      ensures |blocks| == |old(blocks)| && blocks[ip].code != []
      ensures behind == 0 ==> Gen() == Emit(old(Gen()), i)
      ensures behind == 1 ==> Gen() == InsertBefore(old(Gen()), ip, [i])
    {
      var code := blocks[ip].code;
      var at := |code| - behind;
      assert behind == 0 ==> code[..at] + [i] + code[at..] == code + [i];
      blocks := blocks[ip := blocks[ip].(code := code[..at] + [i] + code[at..])];
    }

    method CreateBlock(tag: Label) returns (b: nat)
      requires ip < |blocks|
      modifies this`blocks
      ensures b == |old(blocks)| && b < |blocks|
      ensures Gen() == NewBlock(old(Gen()), tag)
    {
      b := |blocks|;
      blocks := blocks + [BasicBlock(tag, [])];
    }

    method SetInsertPoint(b: nat)
      requires b < |blocks|
      modifies this`ip, this`behind
      ensures ip == b && behind == 0
    {
      ip, behind := b, 0;
    }

    /** Move the insert point in front of the instruction that ends a block. */
    method SetInsertPointBeforeEnd(b: nat)
      requires b < |blocks|
      modifies this`ip, this`behind
      ensures ip == b && behind == 1
    {
      ip, behind := b, 1;
    }

    /** Remove the last instruction of a block. */
    method EraseTerminator(b: nat)
      requires b < |blocks| && |blocks[b].code| > 0
      modifies this`blocks
      ensures |blocks| == |old(blocks)|
      ensures blocks == old(blocks)[b := old(blocks)[b].(code := old(blocks)[b].code[..|old(blocks)[b].code| - 1])]
    {
      var code := blocks[b].code;
      blocks := blocks[b := blocks[b].(code := code[..|code| - 1])];
    }

    /** Create an instruction that defines the next register. */
    method Define(i: Instr) returns (o: Operand)
      requires ip < |blocks| && behind <= |blocks[ip].code|
      modifies this`blocks, this`regs
      ensures ip < |blocks| && blocks[ip].code != []
      ensures behind == 0 ==> Emitted(Gen(), o) == EmitDef(old(Gen()), i)
      ensures behind == 1 ==> o == Reg(old(regs)) &&
                              Gen() == InsertBefore(old(Gen()), ip, [i]).(regs := old(regs) + 1)
    {
      Create(i);
      o := Reg(regs);
      regs := regs + 1;
    }

    /** Load a value unless it has been loaded already. */
    method CreateLoad(v: Val) returns (o: Operand)
      requires Valid()
      modifies this
      ensures Valid() && Emitted(Gen(), o) == Loaded(old(Gen()), v)
    {
      o := v.o;
      if v.ptr {
        o := Define(Load(regs, v.o));
      }
    }

    method ArithmeticConversion(o: Operand, from: Ty, to: Ty) returns (r: Operand)
      requires Valid()
      modifies this
      ensures Valid() && Emitted(Gen(), r) == Converted(old(Gen()), o, from, to)
    {
      r := o;
      if from != to {
        r := Define(Conv(regs, from, to, o));
      }
    }

    method BoolComparison(o: Operand, ty: Ty) returns (r: Operand)
      requires Valid()
      modifies this
      ensures Valid() && Emitted(Gen(), r) == Tested(old(Gen()), o, ty)
    {
      r := Define(Test(regs, ty, o));
    }

    /** Load a value, compare it with zero and branch on the result. */
    method BranchOn(v: Val, ifTrue: nat, ifFalse: nat) returns (o: Operand)
      requires Valid()
      modifies this
      ensures Valid() && Gen() == EmitTest(old(Gen()), v, ifTrue, ifFalse)
      ensures var l := Loaded(old(Gen()), v); o == Tested(l.g, l.o, v.ty).o
    {
      hide Loaded, Tested, Emit;
      o := CreateLoad(v);
      o := BoolComparison(o, v.ty);
      Create(CondBr(o, ifTrue, ifFalse));
    }

    /** Load a value, compare it with zero and go on elsewhere. */
    method TestAndJump(v: Val, dest: nat) returns (o: Operand)
      requires Valid()
      modifies this
      ensures Valid()
      ensures var l := Loaded(old(Gen()), v);
              var t := Tested(l.g, l.o, v.ty);
              o == t.o && Gen() == Emit(t.g, Br(dest))
    {
      hide Loaded, Tested, Emit;
      o := CreateLoad(v);
      o := BoolComparison(o, v.ty);
      Create(Br(dest));
    }

    method CastOperand(o: Operand, from: Ty, to: Ty) returns (r: Operand)
      requires Valid()
      modifies this
      ensures Valid() && Emitted(Gen(), r) == CastTo(old(Gen()), o, from, to)
    {
      if to == Bool {
        r := BoolComparison(o, from);
      } else {
        r := ArithmeticConversion(o, from, to);
      }
    }

    /** The address of an entry of a matrix, which is stored row by row. */
    method EntryAddress(row: Val, column: Val, m: Val) returns (o: Operand)
      requires Valid()
      modifies this
      ensures Valid() && Emitted(Gen(), o) == EmitEntry(old(Gen()), row, column, m)
    {
      hide Loaded, EmitDef;
      var i := CreateLoad(row);
      var j := CreateLoad(column);
      o := Define(Arith(regs, Multiply, Int32, i, Const(Dimension(m.ty))));
      o := Define(Arith(regs, Plus, Int32, o, j));
      o := Define(Gep(regs, m.o, o));
    }

    /** Load a value unless it is an array. */
    method LoadScalar(v: Val) returns (o: Operand)
      requires Valid()
      modifies this
      ensures Valid() && Emitted(Gen(), o) == Taken(old(Gen()), v)
    {
      o := v.o;
      if !v.ty.IsArray() {
        o := CreateLoad(v);
      }
    }

    /** An element of an array; a scalar goes with every element. */
    method LoadElement(o: Operand, ty: Ty, i: nat) returns (r: Operand)
      requires Valid()
      modifies this
      ensures Valid() && Emitted(Gen(), r) == EmitElement(old(Gen()), o, ty, i)
    {
      r := o;
      if ty.IsArray() {
        r := Define(Element(regs, o, i));
      }
    }

    /** Apply a binary operator to two values. Scalars are loaded once, and those that go with a matrix are made
        matrices. */
    method BinaryExpression(op: BinOp, a: Val, b: Val) returns (r: Made)
      requires Valid()
      modifies this
      ensures Valid() && r == EmitBinary(old(Gen()), op, a, b) && (r.Made? ==> r.g == Gen())
    {
      hide Taken, Promoted, EmitOperator;
      var lt, rt := Promotion(a.ty, b.ty), Promotion(b.ty, a.ty);
      var x := LoadScalar(a);
      var y := LoadScalar(b);
      x := Promote(x, a.ty, lt);
      y := Promote(y, b.ty, rt);
      r := Operate(op, x, lt, y, rt);
    }

    /** A scalar on the diagonal of a matrix. */
    method Promote(o: Operand, from: Ty, to: Ty) returns (r: Operand)
      requires Valid()
      modifies this
      ensures Valid() && Emitted(Gen(), r) == Promoted(old(Gen()), o, from, to)
    {
      hide Converted, EmitDef;
      r := o;
      if from != to && to.Vec? {
        var c := ArithmeticConversion(o, from, to.elem);
        r := Define(Pack(regs, Spread(c, Const(0), to.size)));
      }
    }

    /** Products are calls; everything else is computed element by element. */
    method Operate(op: BinOp, x: Operand, lt: Ty, y: Operand, rt: Ty) returns (r: Made)
      requires Valid()
      modifies this
      ensures Valid() && r == EmitOperator(old(Gen()), op, x, lt, y, rt) && (r.Made? ==> r.g == Gen())
    {
      hide EmitZip, EmitArith, EmitProduct;
      r := Fail;
      if IsProduct(op, lt, rt) {
        var o := CallProduct(x, lt, y, rt);
        r := Made(Builder(blocks, ip, regs), Val(o, Vec(ProductElem(lt, rt), ProductSize(lt, rt)), false));
      } else {
        var t := OperandType(op, lt, rt);
        if t.Some? {
          var o := OperateOnElements(op, t.value, x, lt, y, rt);
          r := Made(Builder(blocks, ip, regs), Val(o, ResultType(op, t.value, ZipSize(lt, rt)), false));
        }
      }
    }

    method CallProduct(x: Operand, lt: Ty, y: Operand, rt: Ty) returns (o: Operand)
      requires Valid() && lt.Vec? && rt.Vec?
      modifies this
      ensures Valid() && Emitted(Gen(), o) == EmitProduct(old(Gen()), x, lt, y, rt)
    {
      hide EmitArrayCast, EmitDef;
      var t := ProductElem(lt, rt);
      var p := ArrayCast(x, lt.elem, t, lt.size);
      var q := ArrayCast(y, rt.elem, t, rt.size);
      o := Define(Product(regs, t, p, lt.size, q, rt.size, ProductSize(lt, rt)));
    }

    method OperateOnElements(op: BinOp, t: Ty, x: Operand, lt: Ty, y: Operand, rt: Ty) returns (o: Operand)
      requires Valid() && OperandType(op, lt, rt) == Some(t)
      modifies this
      ensures Valid()
      ensures Emitted(Gen(), o) ==
              if IsElementwise(op, lt, rt) then EmitZip(old(Gen()), op, t, x, lt, y, rt, ZipSize(lt, rt))
              else EmitArith(old(Gen()), op, t, x, lt, y, rt)
    {
      hide EmitZip, EmitArith, EmitElements;
      var size := ZipSize(lt, rt);
      ghost var g := Gen();
      var elements := ComputeElements(op, t, x, lt, y, rt, size);
      SizeIs(op, lt, rt);
      if size == 1 { OneElement(g, op, t, x, lt, y, rt); }
      ZipIs(g, op, t, x, lt, y, rt, size);
      o := elements[0];
      if size > 1 {
        if op == Equals || op == NotEquals {
          o := ReduceElements(op, elements);
        } else {
          o := Define(Pack(regs, elements));
        }
      }
    }

    /** The elements of a binary operator, the two operands of each being loaded and converted in turn. */
    method ComputeElements(op: BinOp, t: Ty, x: Operand, lt: Ty, y: Operand, rt: Ty, size: nat)
      returns (elements: seq<Operand>)
      requires Valid()
      modifies this
      ensures Valid() && EmittedAll(Gen(), elements) == EmitElements(old(Gen()), op, t, x, lt, y, rt, size)
    {
      hide EmitElement, EmitArith, EmitElements;
      elements := [];
      var i := 0;
      NoElements(Gen(), op, t, x, lt, y, rt);
      while i < size
        invariant i <= size && Valid()
        invariant EmittedAll(Gen(), elements) == EmitElements(old(Gen()), op, t, x, lt, y, rt, i)
      {
        NextElement(old(Gen()), op, t, x, lt, y, rt, i);
        var lhs := LoadElement(x, lt, i);
        var rhs := LoadElement(y, rt, i);
        var o := RunOperator(op, t, lhs, ElementOf(lt), rhs, ElementOf(rt));
        elements := elements + [o];
        i := i + 1;
      }
    }

    /** Convert two scalars and apply the operator. */
    method RunOperator(op: BinOp, t: Ty, lhs: Operand, lt: Ty, rhs: Operand, rt: Ty) returns (o: Operand)
      requires Valid()
      modifies this
      ensures Valid() && Emitted(Gen(), o) == EmitArith(old(Gen()), op, t, lhs, lt, rhs, rt)
    {
      hide Converted, EmitDef;
      var p := ArithmeticConversion(lhs, lt, t);
      var q := ArithmeticConversion(rhs, rt, t);
      o := Define(Arith(regs, op, t, p, q));
    }

    /** Arrays are equal if all their elements are, and different if some are. */
    method ReduceElements(op: BinOp, elements: seq<Operand>) returns (o: Operand)
      requires Valid() && |elements| > 0
      modifies this
      ensures Valid() && Emitted(Gen(), o) == EmitReduce(old(Gen()), op, elements)
    {
      hide EmitDef;
      o := elements[0];
      var i := 1;
      while i < |elements|
        invariant 1 <= i <= |elements| && Valid()
        invariant Emitted(Gen(), o) == EmitReduce(old(Gen()), op, elements[..i])
      {
        assert elements[..i + 1][..i] == elements[..i];
        o := Define(Arith(regs, ReduceOp(op), Bool, o, elements[i]));
        i := i + 1;
      }
      assert elements[..i] == elements;
    }

    /** Load all elements of an array. */
    method Unpack(o: Operand, size: nat) returns (elements: seq<Operand>)
      requires Valid()
      modifies this
      ensures Valid() && EmittedAll(Gen(), elements) == Unpacked(old(Gen()), o, size)
    {
      hide EmitDef;
      elements := [];
      var i := 0;
      while i < size
        invariant i <= size && Valid()
        invariant EmittedAll(Gen(), elements) == Unpacked(old(Gen()), o, i)
      {
        var e := Define(Element(regs, o, i));
        elements := elements + [e];
        i := i + 1;
      }
    }

    /** Apply a unary operator to loaded elements. */
    method NegateElements(op: UnOp, elem: Ty, os: seq<Operand>) returns (elements: seq<Operand>)
      requires Valid()
      modifies this
      ensures Valid() && EmittedAll(Gen(), elements) == EmitEach(old(Gen()), op, elem, os)
    {
      hide EmitDef;
      elements := [];
      var i := 0;
      while i < |os|
        invariant i <= |os| && Valid()
        invariant EmittedAll(Gen(), elements) == EmitEach(old(Gen()), op, elem, os[..i])
      {
        assert os[..i + 1][..i] == os[..i];
        var e := Define(Negate(regs, op, elem, os[i]));
        elements := elements + [e];
        i := i + 1;
      }
      assert os[..i] == os;
    }

    /** Apply a unary operator to each element of an array, and pack the results into a new one. */
    method UnaryElements(op: UnOp, v: Val) returns (o: Operand)
      requires Valid() && v.ty.IsArray()
      modifies this
      ensures Valid() && Emitted(Gen(), o) == EmitUnaryEach(old(Gen()), op, v.ty, v.o)
    {
      hide EmitDef, Unpacked, EmitEach;
      var elements := Unpack(v.o, v.ty.size);
      elements := NegateElements(op, v.ty.elem, elements);
      o := Define(Pack(regs, elements));
    }

    /** Store a loaded operand through an lvalue. */
    method AssignExpression(target: Val, o: Operand, ty: Ty) returns (ok: bool)
      requires Valid()
      modifies this
      ensures Valid() && (ok <==> EmitAssign(old(Gen()), target, o, ty).Some?)
      ensures ok ==> EmitAssign(old(Gen()), target, o, ty) == Some(Gen())
    {
      hide Promoted, EmitCells;
      ok := CanAssign(StaticOf(target), ty);
      if ok {
        if target.ty.IsArray() {
          var from := Promotion(ty, target.ty);
          var x := Promote(o, ty, from);
          AssignElements(target, x, from);
        } else if target.ty == Bool {
          // a boolean target is compared with zero, not truncated
          var r := BinaryExpression(NotEquals, Val(Const(0), Int32, false), Val(o, ty, false));
          ok := r.Made?;
          if ok {
            Create(Store(target.o, r.v.o));
          }
        } else {
          var r := ArithmeticConversion(o, ty, target.ty);
          Create(Store(target.o, r));
        }
      }
    }

    /** Store to the elements of an array, one after the other. */
    method AssignElements(target: Val, o: Operand, ty: Ty)
      requires Valid() && target.ty.IsArray()
      modifies this
      ensures Valid() && Gen() == EmitCells(old(Gen()), target.o, target.ty.elem, o, ty, target.ty.size)
    {
      hide EmitElement, Converted, EmitDef, Emit;
      var i := 0;
      while i < target.ty.size
        invariant i <= target.ty.size && Valid()
        invariant Gen() == EmitCells(old(Gen()), target.o, target.ty.elem, o, ty, i)
      {
        var lhs := Define(Gep(regs, target.o, Const(i)));
        var rhs := LoadElement(o, ty, i);
        rhs := ArithmeticConversion(rhs, ElementOf(ty), target.ty.elem);
        Create(Store(lhs, rhs));
        i := i + 1;
      }
    }

    /** `code` has been put in front of the instruction that ends block b. */
    ghost predicate Inserting(g: Gen, b: nat, code: seq<Instr>)
      reads this
    {
      ip == b && behind == 1 && b < |g.blocks| && Code(g, b) != [] && blocks == InsertBefore(g, b, code).blocks
    }

    method DefineBefore(ghost g: Gen, ghost b: nat, ghost code: seq<Instr>, i: Instr) returns (o: Operand)
      requires Inserting(g, b, code)
      modifies this`blocks, this`regs
      ensures Inserting(g, b, code + [i]) && o == Reg(old(regs)) && regs == old(regs) + 1
    {
      InsertMore(g, b, code, i);
      InsertFills(g, b, code, b);
      InsertAt(InsertBefore(g, b, code), Gen(), b, [i]);
      hide InsertBefore;
      o := Define(i);
    }

    /** Load a scalar, convert it and, if the other value is an array, make it an array too. */
    method CastScalarBefore(ghost g: Gen, ghost b: nat, v: Val, to: Ty) returns (o: Operand)
      requires Inserting(g, b, [])
      modifies this`blocks, this`regs
      ensures var c := ScalarCode(old(regs), v, to); Inserting(g, b, c.code) && o == c.o && regs == c.regs
    {
      hide Inserting;
      o := v.o;
      ghost var code := [];
      if v.ptr {
        ghost var load := Load(regs, o);
        o := DefineBefore(g, b, code, Load(regs, o));
        code := code + [load];
      }
      if v.ty != ElementOf(to) {
        ghost var conv := Conv(regs, v.ty, ElementOf(to), o);
        o := DefineBefore(g, b, code, Conv(regs, v.ty, ElementOf(to), o));
        code := code + [conv];
      }
      if to.IsArray() {
        ghost var pack := Pack(regs, Spread(o, Const(0), to.size));
        o := DefineBefore(g, b, code, Pack(regs, Spread(o, Const(0), to.size)));
        code := code + [pack];
      }
      assert code == ScalarCode(old(regs), v, to).code;
    }

    method CastElementBefore(ghost g: Gen, ghost b: nat, ghost code: seq<Instr>, a: Operand, from: Ty, to: Ty, i: nat)
      returns (o: Operand)
      requires Inserting(g, b, code)
      modifies this`blocks, this`regs
      ensures regs == old(regs) + 2 && o == Reg(old(regs) + 1)
      ensures Inserting(g, b, code + [Element(old(regs), a, i), Conv(old(regs) + 1, from, to, Reg(old(regs)))])
    {
      hide Inserting;
      ghost var load, conv := Element(regs, a, i), Conv(regs + 1, from, to, Reg(regs));
      o := DefineBefore(g, b, code, Element(regs, a, i));
      o := DefineBefore(g, b, code + [load], Conv(regs, from, to, o));
      assert code + [load] + [conv] == code + [load, conv];
    }

    /** Convert the elements of an array one after the other and pack them into a new array. */
    method CastArrayBefore(ghost g: Gen, ghost b: nat, a: Operand, from: Ty, to: Ty, size: nat) returns (o: Operand)
      requires Inserting(g, b, [])
      modifies this`blocks, this`regs
      ensures var c := ArrayCastCode(old(regs), a, from, to, size);
              Inserting(g, b, c.code) && o == c.o && regs == c.regs
    {
      hide Inserting;
      assert CellsCode(regs, a, from, to, 0) == CoercionAll([], [], regs);
      hide CellsCode;
      var elements := [];
      ghost var code := [];
      var i := 0;
      while i < size
        invariant i <= size && Inserting(g, b, code)
        invariant CellsCode(old(regs), a, from, to, i) == CoercionAll(code, elements, regs)
      {
        NextCell(old(regs), a, from, to, i);
        ghost var more := [Element(regs, a, i), Conv(regs + 1, from, to, Reg(regs))];
        var e := CastElementBefore(g, b, code, a, from, to, i);
        code, elements := code + more, elements + [e];
        i := i + 1;
      }
      o := DefineBefore(g, b, code, Pack(regs, elements));
    }

    /** Bring a value to another type in front of the branch that ends its block. */
    method CoerceBefore(b: nat, v: Val, to: Static) returns (o: Operand)
      requires b < |blocks| && blocks[b].code != [] && ip < |blocks|
      requires to.Typed? && !to.ptr
      modifies this
      ensures ip < |blocks|
      ensures var c := CoerceCode(old(regs), v, to);
              o == c.o && Gen() == At(InsertBefore(old(Gen()), b, c.code).(regs := c.regs), b)
    {
      hide InsertBefore, ArrayCastCode;
      ghost var g := Gen();
      InsertNothing(g, b);
      SetInsertPointBeforeEnd(b);
      o := v.o;
      if !v.ty.IsArray() && StaticOf(v) != to {
        o := CastScalarBefore(g, b, v, to.ty);
      } else if v.ty != to.ty {
        o := CastArrayBefore(g, b, v.o, v.ty.elem, ElementOf(to.ty), v.ty.size);
      }
    }

    /** The type that two different types are cast to. */
    method BranchType(t: Ty, f: Ty) returns (ok: bool, ty: Static)
      requires t != f || t == Void
      ensures ok <==> ty.Typed?
      ensures forall p, q | t != f || p != q :: ty == TypeOfTernary(Typed(t, p), Typed(f, q))
    {
      if t.IsScalar() && f.IsScalar() {
        ok, ty := true, Typed(TypePrecedence(t, f), false);
      } else if t.IsArray() && f.IsArray() && t.size == f.size {
        ok, ty := true, Typed(Vec(TypePrecedence(t.elem, f.elem), t.size), false);
      } else if t.IsScalar() && f.IsArray() {
        var elem := TypePrecedence(t, f.elem);
        ok := !f.IsMatrix() || elem.IsFloat();
        ty := if ok then Typed(Vec(elem, f.size), false) else Ill;
      } else if t.IsArray() && f.IsScalar() {
        var elem := TypePrecedence(t.elem, f);
        ok := !t.IsMatrix() || elem.IsFloat();
        ty := if ok then Typed(Vec(elem, t.size), false) else Ill;
      } else {
        ok, ty := false, Ill;
      }
    }

    /** Bring the values of the two branches of a ternary to one type. */
    method UnifyBranches(tEnd: nat, t: Val, fEnd: nat, f: Val, ghost ret: nat)
      returns (ok: bool, ty: Static, x: Operand, y: Operand)
      requires ip < |blocks| && tEnd < |blocks| && fEnd < |blocks| && ret < |blocks|
      requires blocks[tEnd].code != [] && blocks[fEnd].code != []
      modifies this
      ensures ip < |blocks| && |blocks| == |old(blocks)|
      ensures !ok ==> ip == old(ip) && behind == old(behind)
      ensures ty == TypeOfTernary(StaticOf(t), StaticOf(f)) && (ok <==> ty.Typed?)
      ensures var c := CoerceCode(old(regs), t, ty);
              var d := CoerceCode(c.regs, f, ty);
              ok ==> x == c.o && y == d.o &&
                     At(Gen(), ret) == Joined(old(Gen()), ret, tEnd, c.code, fEnd, d.code, d.regs)
    {
      hide InsertBefore;
      ghost var g := Gen();
      ghost var to := TypeOfTernary(StaticOf(t), StaticOf(f));
      ghost var c := CoerceCode(g.regs, t, to);
      ghost var d := CoerceCode(c.regs, f, to);
      ghost var h := InsertBefore(g, tEnd, c.code);
      InsertNothing(g, tEnd);
      InsertNothing(h, fEnd);
      InsertFills(g, tEnd, c.code, fEnd);
      ok, ty, x, y := true, StaticOf(t), t.o, f.o;
      if StaticOf(t) != StaticOf(f) {
        if t.ty == f.ty && t.ty.IsArray() {
          // both are pointers to arrays of one type, whether or not they are variables
          ty := Typed(t.ty, false);
        } else if t.ty == f.ty && t.ty != Void {
          // the same type, but one of the two still has to be loaded
          ty := Typed(t.ty, false);
          if t.ptr {
            x := CoerceBefore(tEnd, t, ty);
          } else {
            y := CoerceBefore(fEnd, f, ty);
          }
        } else {
          ok, ty := BranchType(t.ty, f.ty);
          if ok {
            x := CoerceBefore(tEnd, t, ty);
            InsertAt(h, Gen(), fEnd, d.code);
            y := CoerceBefore(fEnd, f, ty);
          }
        }
      }
    }

    /** Convert loaded values to the highest type among them and pack them into a new array. */
    method PackCast(ts: seq<Ty>, os: seq<Operand>) returns (o: Operand)
      requires Valid() && |ts| == |os| && forall t | t in ts :: t.IsScalar()
      modifies this
      ensures var x := ConvertAll(old(Gen()), ts, PackType(ts), os);
              Valid() && Emitted(Gen(), o) == EmitDef(x.g, Pack(x.g.regs, x.os))
    {
      hide Converted, EmitDef;
      var ty := Bool;
      var i := 0;
      while i < |ts|
        invariant i <= |ts| && ty.IsScalar() && ty == PackType(ts[..i])
      {
        assert ts[..i + 1][..i] == ts[..i] && ts[i] in ts;
        ty := TypePrecedence(ty, ts[i]);
        i := i + 1;
      }
      assert ts[..i] == ts;
      var elements := [];
      i := 0;
      while i < |os|
        invariant i <= |os| && Valid()
        invariant EmittedAll(Gen(), elements) == ConvertAll(old(Gen()), ts[..i], ty, os[..i])
      {
        assert os[..i + 1][..i] == os[..i] && ts[..i + 1][..i] == ts[..i];
        var e := ArithmeticConversion(os[i], ts[i], ty);
        elements := elements + [e];
        i := i + 1;
      }
      assert os[..i] == os && ts[..i] == ts;
      o := Define(Pack(regs, elements));
    }

    /** Convert the elements of an array one after the other and pack them into a new array. */
    method ArrayCast(a: Operand, from: Ty, to: Ty, size: nat) returns (o: Operand)
      requires Valid()
      modifies this
      ensures Valid() && Emitted(Gen(), o) == EmitArrayCast(old(Gen()), a, from, to, size)
    {
      hide EmitDef;
      if from == to {
        return a;
      }
      var elements := [];
      var i := 0;
      while i < size
        invariant i <= size && Valid()
        invariant EmittedAll(Gen(), elements) == EmitCastCells(old(Gen()), a, from, to, i)
      {
        NextCast(old(Gen()), a, from, to, i);
        hide EmitCastCells;
        var e := Define(Element(regs, a, i));
        e := Define(Conv(regs, from, to, e));
        elements := elements + [e];
        i := i + 1;
      }
      o := Define(Pack(regs, elements));
    }

    method CastArgument(to: ArgTy, from: ArgTy, o: Operand) returns (r: Operand)
      requires Valid()
      modifies this
      ensures Valid() && Emitted(Gen(), r) == EmitArg(old(Gen()), to, from, o)
    {
      hide CastTo, EmitArrayCast;
      if from.Pointer? {
        r := ArrayCast(o, ElementOf(ElementType(from)), ElementOf(ElementType(to)), SizeBehind(from));
      } else {
        r := CastOperand(o, ElementType(from), ElementType(to));
      }
    }

    /** Cast each argument of an implicit match to the type of its parameter. */
    method CastArguments(params: seq<Parameter>, ts: seq<ArgTy>, os: seq<Operand>) returns (rs: seq<Operand>)
      requires Valid() && |params| == |ts| == |os|
      modifies this
      ensures Valid() && EmittedAll(Gen(), rs) == CastAll(old(Gen()), params, ts, os)
    {
      rs := [];
      var i := 0;
      while i < |os|
        invariant i <= |os| && Valid()
        invariant var rest := CastAll(Gen(), params[i..], ts[i..], os[i..]);
                  CastAll(old(Gen()), params, ts, os) == EmittedAll(rest.g, rs + rest.os)
      {
        CastAllFrom(Gen(), params, ts, os, i);
        hide CastAll, EmitArg;
        var r := CastArgument(params[i].ty, ts[i], os[i]);
        rs := rs + [r];
        i := i + 1;
      }
    }
  }
}
