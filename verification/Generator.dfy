/**
The code generator as it runs: a stack of values, a stack of break and continue targets, a scope
index and flat symbol tables, all updated by every visit. Each visit is proved to compute what
`Lowering` says, and to leave exactly the value it says on the stack.
*/
module Generator {
  import opened Types
  import opened Ast
  import opened Overloads
  import opened Semantics
  import opened Cfg
  import opened Lowering
  import opened Frames
  import opened SymbolTables
  import opened Scoping
  import opened IrBuilder

  function TopExits(exits: seq<Exits>): Option<Exits> {
    if |exits| == 0 then None else Some(exits[|exits| - 1])
  }

  /** An expression visit reports an error when the specification does. Otherwise it has generated the
      specified code and left exactly the specified value above an untouched stack. */
  ghost predicate Visited(m: Made, ok: bool, g: Gen, was: seq<Val>, values: seq<Val>) {
    && (ok <==> !m.Fail?)
    && (ok ==> g == m.g && values == was + Pushed(m))
  }

  class ComputeGenerator {
    const functions: Functions
    const builder: InstructionBuilder
    const symbols: SymbolTableBlocks
    var slots: nat
    var values: seq<Val>
    var exits: seq<Exits>
    var scopeIndex: nat

    ghost predicate Valid()
      reads this`scopeIndex, builder, symbols
    {
      && builder.Valid() && scopeIndex >= 1 && symbols.Valid()
      && NoneAbove(symbols.tables, scopeIndex) && GlobalTokens(symbols.tables)
    }

    ghost function Gen(): Gen
      requires builder.Valid()
      reads builder
    {
      builder.Gen()
    }

    /** The nested scopes the flat tables stand for are those of this environment. */
    ghost predicate In(env: Env)
      reads this`scopeIndex, symbols
    {
      env.scopes == Nested(symbols.tables, scopeIndex)
    }

    /** An empty entry block; attributes are declared in table 1 by the point and volume generators. */
    constructor (functions: Functions)
      ensures Valid() && this.functions == functions && fresh(symbols) && fresh(builder)
      ensures Gen() == Builder([BasicBlock(Entry, [])], 0, 0) && In(Env([map[]], 0)) && slots == 0
      ensures values == [] && exits == [] && scopeIndex == 1 && symbols.tables == map[0 := map[]]
    {
      this.functions := functions;
      slots := 0;
      values, exits := [], [];
      scopeIndex := 1;
      symbols := new SymbolTableBlocks();
      builder := new InstructionBuilder();
      new;
      assert Nested(symbols.tables, 1) == [map[]];
    }

    // -------------------------------------------------------------------------------------
    // Expressions

    method Push(v: Val)
      modifies this`values
      ensures values == old(values) + [v]
    {
      values := values + [v];
    }

    /** Take the top value off a stack of known height, so never off an empty one. */
    method Pop(ghost below: seq<Val>, ghost top: Val) returns (v: Val)
      requires values == below + [top]
      modifies this`values
      ensures values == below && v == top
    {
      v := values[|values| - 1];
      values := values[..|values| - 1];
    }

    method VisitExpr(e: Expr, ghost env: Env) returns (ok: bool)
      requires Valid() && In(env)
      modifies builder, this`values
      ensures Valid()
      ensures Visited(Lower(functions, e, env, old(Gen())), ok, Gen(), old(values), values)
      decreases e, 2
    {
      hide Visited;
      match e
      case Literal(ty, n) => ok := VisitLiteral(e, env);
      case Local(name) => ok := VisitLocal(e, env);
      case Attribute(ty, name) => ok := VisitAttribute(e, env);
      case Component(_, _) => ok := VisitComponent(e, env);
      case MatrixEntry(_, _, _) => ok := VisitEntry(e, env);
      case Unary(_, _) => ok := VisitUnary(e, env);
      case Binary(_, _, _) => ok := VisitBinary(e, env);
      case Logical(_, _, _) => ok := VisitLogical(e, env);
      case Ternary(_, _, _) => ok := VisitTernary(e, env);
      case Comma(_) => ok := VisitComma(e, env);
      case Assign(_, _, _) => ok := VisitAssign(e, env);
      case Crement(_, _, _) => ok := VisitCrement(e, env);
      case Cast(_, _) => ok := VisitCast(e, env);
      case Call(_, _) => ok := VisitCall(e, env);
      case ArrayPack(_) => ok := VisitPack(e, env);
    }

    /** Visit an expression and take its value off the stack. An expression that leaves no value is an
        error here: there is nothing of its own to take. */
    method Traverse(e: Expr, ghost env: Env) returns (ok: bool, v: Val)
      requires Valid() && In(env)
      modifies builder, this`values
      ensures Valid()
      ensures var m := Lower(functions, e, env, old(Gen()));
              (ok <==> m.Made?) && (ok ==> m == Made(Gen(), v) && values == old(values))
      decreases e, 3
    {
      hide Lower, Nested;
      v := Val(Const(0), Void, false);
      var height := |values|;
      ghost var m := Lower(functions, e, env, Gen());
      ok := VisitExpr(e, env);
      ok := ok && |values| > height;
      if ok {
        v := Pop(old(values), m.v);
      }
    }

    method VisitLiteral(e: Expr, ghost env: Env) returns (ok: bool)
      requires e.Literal? && Valid() && In(env)
      modifies this`values
      ensures Valid()
      ensures Visited(Lower(functions, e, env, Gen()), ok, Gen(), old(values), values)
    {
      ok := e.ty.IsScalar();
      if ok {
        Push(Val(Const(e.bits), e.ty, false));
      }
    }

    /** The search of the flat tables stands for the search of the nested scopes. */
    method VisitLocal(e: Expr, ghost env: Env) returns (ok: bool)
      requires e.Local? && Valid() && In(env)
      modifies this`values
      ensures Valid()
      ensures Visited(Lower(functions, e, env, Gen()), ok, Gen(), old(values), values)
    {
      var v := symbols.Find(Name(e.name), scopeIndex);
      ok := v.Some?;
      if ok {
        Push(Val(Slot(v.value.slot), v.value.ty, true));
      }
    }

    method VisitAttribute(e: Expr, ghost env: Env) returns (ok: bool)
      requires e.Attribute? && Valid() && In(env)
      modifies this`values
      ensures Valid()
      ensures Visited(Lower(functions, e, env, Gen()), ok, Gen(), old(values), values)
    {
      var v := symbols.Get(1, Token(e.attrTy, e.attrName));
      ok := v.Some?;
      if ok {
        Push(Val(Slot(v.value.slot), v.value.ty, true));
      }
    }

    /** Visit two operands in a row, leaving both values on the stack. */
    method VisitBoth(l: Expr, r: Expr, ghost e: Expr, ghost env: Env) returns (ok: bool)
      requires l < e && r < e && Valid() && In(env)
      modifies builder, this`values
      ensures Valid()
      ensures var a := Lower(functions, l, env, old(Gen()));
              var b := if a.Made? then Lower(functions, r, env, a.g) else Fail;
              (ok <==> b.Made?) && (ok ==> b.g == Gen() && values == old(values) + [a.v, b.v])
      decreases e, 0
    {
      hide Lower, Nested;
      var height := |values|;
      ok := VisitExpr(l, env);
      ok := ok && |values| == height + 1;
      if ok {
        ok := VisitExpr(r, env);
        ok := ok && |values| == height + 2;
      }
    }

    method VisitComponent(e: Expr, ghost env: Env) returns (ok: bool)
      requires e.Component? && Valid() && In(env)
      modifies builder, this`values
      ensures Valid()
      ensures Visited(Lower(functions, e, env, old(Gen())), ok, Gen(), old(values), values)
      decreases e, 1
    {
      hide Loaded, EmitDef;
      ghost var a := Lower(functions, e.index, env, Gen());
      ghost var b := if a.Made? then Lower(functions, e.vec, env, a.g) else Fail;
      ok := VisitBoth(e.index, e.vec, e, env);
      if ok {
        var v := Pop(old(values) + [a.v], b.v);
        var i := Pop(old(values), a.v);
        ok := v.ptr && v.ty.Vec? && i.ty.IsInteger();
        if ok {
          var x := builder.CreateLoad(i);
          var o := builder.Define(Gep(builder.regs, v.o, x));
          Push(Val(o, v.ty.elem, true));
        }
      }
    }

    /** The matrix is on top of the stack, above the column and the row. */
    method VisitEntry(e: Expr, ghost env: Env) returns (ok: bool)
      requires e.MatrixEntry? && Valid() && In(env)
      modifies builder, this`values
      ensures Valid()
      ensures Visited(Lower(functions, e, env, old(Gen())), ok, Gen(), old(values), values)
      decreases e, 1
    {
      hide Loaded, EmitDef, Nested;
      ghost var a := Lower(functions, e.row, env, Gen());
      ghost var b := if a.Made? then Lower(functions, e.column, env, a.g) else Fail;
      ok := VisitBoth(e.row, e.column, e, env);
      if ok {
        var v;
        ok, v := Traverse(e.matrix, env);
        if ok {
          var j := Pop(old(values) + [a.v], b.v);
          var i := Pop(old(values), a.v);
          ok := v.ptr && v.ty.IsMatrix() && i.ty == Int32 && j.ty == Int32;
          if ok {
            var o := builder.EntryAddress(i, j, v);
            Push(Val(o, ElementOf(v.ty), true));
          }
        }
      }
    }

    method VisitUnary(e: Expr, ghost env: Env) returns (ok: bool)
      requires e.Unary? && Valid() && In(env)
      modifies builder, this`values
      ensures Valid()
      ensures Visited(Lower(functions, e, env, old(Gen())), ok, Gen(), old(values), values)
      decreases e, 1
    {
      hide Loaded, Converted, EmitUnaryEach, EmitDef;
      var height := |values|;
      ghost var a := Lower(functions, e.operand, env, Gen());
      ok := VisitExpr(e.operand, env);
      // a unary plus keeps whatever is on the stack
      if ok && e.unOp != UnaryPlus {
        ok := |values| > height;
        if ok {
          var v := Pop(old(values), a.v);
          var t := TypeOfUnary(e.unOp, v.ty);
          ok := t.Typed?;
          if ok && v.ty.IsArray() {
            var o := builder.UnaryElements(e.unOp, v);
            Push(Val(o, t.ty, false));
          } else if ok {
            var wide := if e.unOp == LogicalNot then v.ty else UnaryType(v.ty);
            var x := builder.CreateLoad(v);
            var y := builder.ArithmeticConversion(x, v.ty, wide);
            var o := builder.Define(Negate(builder.regs, e.unOp, wide, y));
            Push(Val(o, t.ty, false));
          }
        }
      }
    }

    method VisitBinary(e: Expr, ghost env: Env) returns (ok: bool)
      requires e.Binary? && Valid() && In(env)
      modifies builder, this`values
      ensures Valid()
      ensures Visited(Lower(functions, e, env, old(Gen())), ok, Gen(), old(values), values)
      decreases e, 0
    {
      hide EmitBinary;
      var lhs, rhs;
      ok, lhs := Traverse(e.lhs, env);
      if ok {
        ok, rhs := Traverse(e.rhs, env);
        if ok {
          BinaryMade(Gen(), e.binOp, lhs, rhs);
          var r := builder.BinaryExpression(e.binOp, lhs, rhs);
          ok := r.Made?;
          if ok { Push(r.v); }
        }
      }
    }

    method VisitLogical(e: Expr, ghost env: Env) returns (ok: bool)
      requires e.Logical? && Valid() && In(env)
      modifies builder, this`values
      ensures Valid()
      ensures Visited(LowerLogical(functions, e, env, old(Gen())), ok, Gen(), old(values), values)
      decreases e, 1
    {
      hide Loaded, Tested, EmitDef, Emit, Lower, Nested, NoneAbove, GlobalTokens, Frame;
      var rhsBlock := builder.CreateBlock(LogicalRhs);
      var returnBlock := builder.CreateBlock(LogicalReturn);
      var lhs, rhs;
      ok, lhs := Traverse(e.first, env);
      ok := ok && lhs.ty.IsScalar();
      if ok {
        var lhsEnd := builder.ip;
        var x := builder.BranchOn(lhs, if e.isAnd then rhsBlock else returnBlock,
                                  if e.isAnd then returnBlock else rhsBlock);
        builder.SetInsertPoint(rhsBlock);
        ok, rhs := Traverse(e.second, env);
        ok := ok && rhs.ty.IsScalar();
        if ok {
          var rhsEnd := builder.ip;
          var y := builder.TestAndJump(rhs, returnBlock);
          builder.SetInsertPoint(returnBlock);
          var o := builder.Define(Phi(builder.regs, [Arm(lhsEnd, x), Arm(rhsEnd, y)]));
          Push(Val(o, Bool, false));
        }
      }
    }

    /** Only the last value is kept. */
    method VisitComma(e: Expr, ghost env: Env) returns (ok: bool)
      requires e.Comma? && Valid() && In(env)
      modifies builder, this`values
      ensures Valid()
      ensures Visited(Lower(functions, e, env, old(Gen())), ok, Gen(), old(values), values)
      decreases e, 1
    {
      if e.exprs.NoExprs? {
        return false;
      }
      var rest, v := e.exprs, Val(Const(0), Void, false);
      ok := true;
      while ok && rest.ConsExpr?
        invariant rest == e.exprs || rest < e.exprs
        invariant Valid() && (ok ==> values == old(values))
        invariant ok && rest.ConsExpr? ==>
                    LowerComma(functions, e.exprs, env, old(Gen())) ==
                    LowerComma(functions, rest, env, Gen())
        invariant ok && rest.NoExprs? ==>
                    LowerComma(functions, e.exprs, env, old(Gen())) == Made(Gen(), v)
        invariant !ok ==> LowerComma(functions, e.exprs, env, old(Gen())).Fail?
        decreases rest, ok
      {
        ok, v := Traverse(rest.head, env);
        rest := rest.tail;
      }
      if ok { Push(v); }
    }

    method VisitAssign(e: Expr, ghost env: Env) returns (ok: bool)
      requires e.Assign? && Valid() && In(env)
      modifies builder, this`values
      ensures Valid()
      ensures Visited(Lower(functions, e, env, old(Gen())), ok, Gen(), old(values), values)
      decreases e, 1
    {
      hide EmitBinary, EmitAssign, Taken;
      ghost var a := Lower(functions, e.target, env, Gen());
      ghost var b := if a.Made? then Lower(functions, e.source, env, a.g) else Fail;
      ok := VisitBoth(e.target, e.source, e, env);
      if ok {
        var rhs := Pop(old(values) + [a.v], b.v);
        var lhs := values[|values| - 1];
        if e.compound.Some? {
          var r := builder.BinaryExpression(e.compound.value, lhs, rhs);
          ok := r.Made?;
          if ok { rhs := r.v; }
        }
        ok := ok && IsOperand(rhs.ty);
        if ok {
          var x := builder.LoadScalar(rhs);
          ok := builder.AssignExpression(lhs, x, rhs.ty);
        }
      }
    }

    method VisitCrement(e: Expr, ghost env: Env) returns (ok: bool)
      requires e.Crement? && Valid() && In(env)
      modifies builder, this`values
      ensures Valid()
      ensures Visited(Lower(functions, e, env, old(Gen())), ok, Gen(), old(values), values)
      decreases e, 1
    {
      hide Loaded, Converted, EmitDef, Emit;
      var v;
      ok, v := Traverse(e.variable, env);
      ok := ok && v.ptr && v.ty.IsScalar() && v.ty != Bool;
      if ok {
        var x := builder.CreateLoad(v);
        var one := builder.ArithmeticConversion(Const(if e.increment then 1 else -1), Int32, v.ty);
        var sum := builder.Define(Arith(builder.regs, Plus, v.ty, x, one));
        builder.Create(Store(v.o, sum));
        Push(if e.post then Val(x, v.ty, false) else v);
      }
    }

    /** A cast to the type the value already has takes the value off the stack and leaves nothing. */
    method VisitCast(e: Expr, ghost env: Env) returns (ok: bool)
      requires e.Cast? && Valid() && In(env)
      modifies builder, this`values
      ensures Valid()
      ensures Visited(Lower(functions, e, env, old(Gen())), ok, Gen(), old(values), values)
      decreases e, 1
    {
      hide Loaded, CastTo;
      var v;
      ok, v := Traverse(e.inner, env);
      ok := ok && v.ty.IsScalar() && e.castTy.IsScalar();
      if ok && v.ty != e.castTy {
        var x := builder.CreateLoad(v);
        var y := builder.CastOperand(x, v.ty, e.castTy);
        Push(Val(y, e.castTy, false));
      }
    }

    /** Visit the arguments of a call, first to last, leaving all their values on the stack. */
    method VisitArguments(es: Exprs, ghost env: Env) returns (ok: bool)
      requires Valid() && In(env)
      modifies builder, this`values
      ensures Valid()
      ensures var m := LowerArgs(functions, es, env, old(Gen()));
              (ok <==> m.Args?) && (ok ==> m.g == Gen() && values == old(values) + m.vs)
      decreases es, 2
    {
      ok := true;
      if es.ConsExpr? {
        var height := |values|;
        ok := VisitExpr(es.head, env);
        ok := ok && |values| == height + 1 && IsOperand(values[height].ty);
        if ok {
          ok := VisitArguments(es.tail, env);
        }
      }
    }

    method VisitCall(e: Expr, ghost env: Env) returns (ok: bool)
      requires e.Call? && Valid() && In(env)
      modifies builder, this`values
      ensures Valid()
      ensures Visited(Lower(functions, e, env, old(Gen())), ok, Gen(), old(values), values)
      decreases e, 1
    {
      hide LoadAll, CastAll, EmitDef, Resolve;
      if e.callee !in functions {
        return false;
      }
      ok := VisitArguments(e.args, env);
      if ok {
        ghost var vs := LowerArgs(functions, e.args, env, old(Gen())).vs;
        var ts, os := PopArguments(Length(e.args), old(values), vs);
        var r := MatchGroup(functions[e.callee], ts);
        ok := r.target.Some?;
        if ok {
          var sig := r.target.value;
          ResolveFits(functions[e.callee], ts);
          if r.kind == Implicit {
            os := builder.CastArguments(sig.params, ts, os);
          }
          var o := builder.Define(Invoke(builder.regs, sig, os));
          Push(Val(o, sig.result, false));
        }
      }
    }

    /** A pack of one element leaves it on the stack as it is; otherwise all elements are taken off. */
    method VisitPack(e: Expr, ghost env: Env) returns (ok: bool)
      requires e.ArrayPack? && Valid() && In(env)
      modifies builder, this`values
      ensures Valid()
      ensures Visited(Lower(functions, e, env, old(Gen())), ok, Gen(), old(values), values)
      decreases e, 1
    {
      hide LoadAll, ConvertAll, EmitDef;
      if e.elements.NoExprs? {
        return false;
      }
      if e.elements.tail.NoExprs? {
        ok := VisitExpr(e.elements.head, env);
        return;
      }
      ok := VisitArguments(e.elements, env);
      if ok {
        ghost var vs := LowerArgs(functions, e.elements, env, old(Gen())).vs;
        ScalarArgs(vs);
        var ts, os := PopArguments(Length(e.elements), old(values), vs);
        ok := AllScalars(ts);
        if ok {
          var o := builder.PackCast(ElementTypes(ts), os);
          Push(Val(o, Vec(PackType(ElementTypes(ts)), |ts|), false));
        }
      }
    }

    /** Take n arguments off the stack, last to first, loading each scalar as it comes off. */
    method PopArguments(n: nat, ghost below: seq<Val>, ghost vs: seq<Val>) returns (ts: seq<ArgTy>, os: seq<Operand>)
      requires Valid() && |vs| == n && values == below + vs
      modifies builder, this`values
      ensures Valid() && values == below
      ensures ts == ArgTypes(vs) && EmittedAll(Gen(), os) == LoadAll(old(Gen()), vs)
    {
      ts, os := [], [];
      var i: nat := n;
      while i > 0
        invariant i <= n && Valid() && values == below + vs[..i]
        invariant ts == ArgTypes(vs[i..]) && vs[..n] == vs
        invariant var rest := LoadAll(Gen(), vs[..i]);
                  LoadAll(old(Gen()), vs) == EmittedAll(rest.g, rest.os + os)
      {
        i := i - 1;
        assert vs[..i + 1][..i] == vs[..i];
        var v := Pop(below + vs[..i], vs[i]);
        var x := builder.LoadScalar(v);
        ts, os := [ArgType(v.ty)] + ts, [x] + os;
        ArgTypesFrom(vs, i);
      }
    }

    method VisitTernary(e: Expr, ghost env: Env) returns (ok: bool)
      requires e.Ternary? && Valid() && In(env)
      modifies builder, this`values
      ensures Valid()
      ensures Visited(LowerTernary(functions, e, env, old(Gen())), ok, Gen(), old(values), values)
      decreases e, 1, 1
    {
      hide Loaded, Tested, EmitDef, Emit, Lower, Nested, LowerBranches;
      var trueBlock := builder.CreateBlock(TernaryTrue);
      var falseBlock := builder.CreateBlock(TernaryFalse);
      var returnBlock := builder.CreateBlock(TernaryReturn);
      var c;
      ok, c := Traverse(e.cond, env);
      ok := ok && c.ty.IsScalar();
      if ok {
        var x := builder.BranchOn(c, trueBlock, falseBlock);
        ok := TernaryBranches(e, env, c, trueBlock, falseBlock, returnBlock);
      }
    }

    /** The branches of a ternary, each in a block of its own. */
    method TernaryBranches(e: Expr, ghost env: Env, cond: Val, trueBlock: nat, falseBlock: nat, returnBlock: nat)
      returns (ok: bool)
      requires e.Ternary? && Valid() && In(env) && falseBlock == trueBlock + 1 &&
        returnBlock == trueBlock + 2 < |builder.blocks|
      modifies builder, this`values
      ensures Valid()
      ensures Visited(LowerBranches(functions, e, env, trueBlock, cond, old(Gen())), ok, Gen(), old(values), values)
      decreases e, 1, 0
    {
      hide Emit, JoinTernary, Lower, LowerTernary, LowerLogical, LowerComma, LowerArgs, Nested, NoneAbove,
        GlobalTokens, Frame;
      ghost var g0 := At(Gen(), trueBlock);
      var t, f := cond, cond;
      builder.SetInsertPoint(trueBlock);
      ok := true;
      if e.onTrue.Some? {
        ok, t := Traverse(e.onTrue.value, env);
      }
      if ok {
        var tEnd := builder.ip;
        builder.Create(Br(returnBlock));
        ghost var g1 := At(Gen(), falseBlock);
        builder.SetInsertPoint(falseBlock);
        ok, f := Traverse(e.onFalse, env);
        if ok {
          StillFilled(functions, e.onFalse, env, g1, tEnd);
          ghost var g2 := Gen();
          var fEnd := builder.ip;
          builder.Create(Br(returnBlock));
          EmitFills(g2, Br(returnBlock), tEnd);
          ok := TernaryResult(returnBlock, tEnd, t, fEnd, f);
        }
      }
    }

    /** Join the two values of a ternary. Loads and casts go in front of the branches that end the two
        blocks, which were created before the types of both values were known. */
    method TernaryResult(returnBlock: nat, tEnd: nat, t: Val, fEnd: nat, f: Val) returns (ok: bool)
      requires Valid() && returnBlock < |builder.blocks| && tEnd < |builder.blocks| && fEnd < |builder.blocks|
      requires builder.blocks[tEnd].code != [] && builder.blocks[fEnd].code != []
      modifies builder, this`values
      ensures Valid()
      ensures Visited(JoinTernary(returnBlock, tEnd, t, fEnd, f, old(Gen())), ok, Gen(), old(values), values)
    {
      hide Joined, EmitDef;
      var ty, x, y;
      ok, ty, x, y := builder.UnifyBranches(tEnd, t, fEnd, f, returnBlock);
      if !ok {
        return;
      }
      builder.SetInsertPoint(returnBlock);
      if StaticOf(t) == StaticOf(f) == Typed(Void, false) {
        // a void value is pushed so that nothing can be made of it
        Push(f);
      } else {
        var o := builder.Define(Phi(builder.regs, [Arm(tEnd, x), Arm(fEnd, y)]));
        Push(Val(o, ty.ty, ty.ptr));
      }
    }

    // -------------------------------------------------------------------------------------
    // Statements

    /** The tables and the slots allocated so far are those of this environment. */
    ghost predicate Stores(env: Env)
      reads this`scopeIndex, this`slots, symbols
    {
      In(env) && slots == env.slots
    }

    /** A statement visit reports an error when the specification does; otherwise it has generated the
        specified code and the tables stand for the environment after the statement. */
    ghost predicate Compiled(r: Option<Gen>, ok: bool, env: Env)
      reads this`scopeIndex, this`slots, builder, symbols
    {
      && (ok <==> r.Some?)
      && (ok ==> Valid() && r == Some(Gen()) && Stores(env))
    }

    method VisitStmt(s: Stmt, ghost env: Env) returns (ok: bool)
      requires Valid() && Stores(env)
      modifies builder, symbols, this`values, this`slots, this`scopeIndex, this`exits
      ensures Compiled(LowerStmt(functions, s, env, TopExits(old(exits)), old(Gen())), ok, After(s, env))
      ensures ok ==> scopeIndex == old(scopeIndex) && exits == old(exits)
      decreases s, 2
    {
      hide In, Nested, NoneAbove, GlobalTokens, LowerIf, LowerLoop, Lower;
      match s
      case ExprStmt(e) => ok := VisitExpr(e, env);
      case Declare(_, _, _) => ok := VisitDeclare(s, env);
      case Block(body) => ok := VisitBlock(body, env);
      case StatementList(ss) => ok := VisitList(ss, env);
      case If(_, _, _) => ok := VisitIf(s, env);
      case Loop(_, _, _) => ok := VisitLoop(s, env);
      case Jump(_) => ok := VisitJump(s, env);
    }

    /** A declaration owns a new slot, and its name is in scope in its own initialiser. */
    method VisitDeclare(s: Stmt, ghost env: Env) returns (ok: bool)
      requires s.Declare? && Valid() && Stores(env)
      modifies builder, symbols, this`values, this`slots
      ensures Compiled(LowerStmt(functions, s, env, TopExits(exits), old(Gen())), ok, After(s, env))
      decreases s, 1
    {
      hide Taken, EmitAssign, NoneAbove, Nested, GlobalTokens, LowerStmts, LowerIf, LowerLoop, LowerTernary,
        LowerLogical, Lookup;
      var slot := slots;
      slots := slots + 1;
      ghost var env1 := Declared(env, s.ty, s.name);
      DeclareChecks(symbols.tables, scopeIndex, env, s.name);
      ok := symbols.Insert(scopeIndex, Name(s.name), Var(slot, s.ty));
      if ok {
        InsertDeclares(old(symbols.tables), scopeIndex, env, s.ty, s.name, symbols.tables);
        StillNoneAbove(old(symbols.tables), scopeIndex, symbols.tables);
        ok := VisitLocal(Local(s.name), env1);
        var variable := Pop(old(values), Val(Slot(slot), s.ty, true));
        if s.initial.Some? {
          var v;
          ok, v := Traverse(s.initial.value, env1);
          ok := ok && IsOperand(v.ty);
          if ok {
            var x := builder.LoadScalar(v);
            ok := builder.AssignExpression(variable, x, v.ty);
            Push(variable);
          }
        }
      }
    }

    /** Statements in sequence that share the scope around them. */
    method VisitList(ss: Stmts, ghost env: Env) returns (ok: bool)
      requires Valid() && Stores(env)
      modifies builder, symbols, this`values, this`slots, this`scopeIndex, this`exits
      ensures Compiled(LowerStmts(functions, ss, env, TopExits(old(exits)), old(Gen())), ok, AfterList(ss, env))
      ensures ok ==> scopeIndex == old(scopeIndex) && exits == old(exits)
      decreases ss, 2
    {
      hide In, Nested, NoneAbove, GlobalTokens, LowerStmt, After;
      ok := true;
      if ss.ConsStmt? {
        ok := VisitStmt(ss.head, env);
        if ok {
          ok := VisitList(ss.tail, After(ss.head, env));
        }
      }
    }

    /** A block opens a scope, empties the value stack after every statement, and erases its table when
        it is left. */
    method VisitBlock(body: Stmts, ghost env: Env) returns (ok: bool)
      requires Valid() && Stores(env)
      modifies builder, symbols, this`values, this`slots, this`scopeIndex, this`exits
      ensures Compiled(LowerStmts(functions, body, Semantics.Push(env), TopExits(old(exits)), old(Gen())), ok,
                       env.(slots := AfterList(body, Semantics.Push(env)).slots))
      ensures ok ==> scopeIndex == old(scopeIndex) && exits == old(exits)
      ensures ok && (body.ConsStmt? || old(values) == []) ==> values == []
      decreases body, 2
    {
      hide In, Nested, NoneAbove, GlobalTokens, LowerStmt, After;
      EnterScope(env);
      ghost var inner := Semantics.Push(env);
      BodyRestores(body, env);
      var rest := body;
      ok := true;
      while ok && rest.ConsStmt?
        invariant rest == body || rest < body
        invariant ok ==> Valid() && Stores(inner) && scopeIndex == old(scopeIndex) + 1 && exits == old(exits)
        invariant ok ==> LowerStmts(functions, body, Semantics.Push(env), TopExits(old(exits)), old(Gen())) ==
                         LowerStmts(functions, rest, inner, TopExits(exits), Gen())
        invariant ok ==> AfterList(body, Semantics.Push(env)) == AfterList(rest, inner)
        invariant !ok ==> LowerStmts(functions, body, Semantics.Push(env), TopExits(old(exits)), old(Gen())).None?
        invariant values == if rest == body then old(values) else []
        decreases rest, ok
      {
        ok := VisitStmt(rest.head, inner);
        values := [];
        inner := After(rest.head, inner);
        rest := rest.tail;
      }
      if ok {
        LeaveScope(inner, env);
      }
    }

    method EnterScope(ghost env: Env)
      requires Valid() && Stores(env)
      modifies this`scopeIndex
      ensures Valid() && Stores(Semantics.Push(env)) && scopeIndex == old(scopeIndex) + 1
    {
      scopeIndex := scopeIndex + 1;
      assert Nested(symbols.tables, scopeIndex) == env.scopes + [map[]];
    }

    /** Leaving a scope erases its table; the enclosing tables are as they were. */
    method LeaveScope(ghost inner: Env, ghost env: Env)
      requires Valid() && Stores(inner) && scopeIndex > 1
      requires |inner.scopes| == |env.scopes| + 1 && inner.scopes[..|env.scopes|] == env.scopes
      modifies symbols, this`scopeIndex
      ensures Valid() && Stores(env.(slots := inner.slots)) && scopeIndex == old(scopeIndex) - 1
    {
      var _ := symbols.Erase(scopeIndex);
      scopeIndex := scopeIndex - 1;
      assert forall i | 0 <= i < scopeIndex :: Nested(symbols.tables, scopeIndex)[i] == inner.scopes[i];
      assert Nested(symbols.tables, scopeIndex) == inner.scopes[..scopeIndex];
    }

    method VisitCondition(e: Expr, ghost env: Env, ifTrue: nat, ifFalse: nat) returns (ok: bool)
      requires Valid() && In(env)
      modifies builder, this`values
      ensures Valid()
      ensures var r := LowerCondition(functions, e, env, ifTrue, ifFalse, old(Gen()));
              (ok <==> r.Some?) && (ok ==> r == Some(Gen()))
      decreases e, 4
    {
      hide In, Nested, NoneAbove, GlobalTokens, Lower, Loaded, Tested, Emit;
      var v;
      ok, v := Traverse(e, env);
      ok := ok && v.ty.IsScalar();
      if ok {
        var _ := builder.BranchOn(v, ifTrue, ifFalse);
      }
    }

    /** Visit a block in a basic block of its own and go on elsewhere. */
    method VisitArm(body: Stmts, ghost env: Env, start: nat, dest: nat) returns (ok: bool)
      requires Valid() && Stores(env) && start < |builder.blocks|
      modifies builder, symbols, this`values, this`slots, this`scopeIndex, this`exits
      ensures var r := LowerStmts(functions, body, Semantics.Push(env), TopExits(old(exits)), At(old(Gen()), start));
              Compiled(if r.Some? then Some(Emit(r.value, Br(dest))) else None, ok,
                       env.(slots := AfterList(body, Semantics.Push(env)).slots))
      ensures ok ==> scopeIndex == old(scopeIndex) && exits == old(exits)
      ensures ok ==> |old(builder.blocks)| <= |builder.blocks|
      decreases body, 3
    {
      hide In, Nested, NoneAbove, GlobalTokens, LowerStmts, AfterList, Emit;
      builder.SetInsertPoint(start);
      ok := VisitBlock(body, env);
      if ok {
        builder.Create(Br(dest));
      }
    }

    method VisitIf(s: Stmt, ghost env: Env) returns (ok: bool)
      requires s.If? && Valid() && Stores(env)
      modifies builder, symbols, this`values, this`slots, this`scopeIndex, this`exits
      ensures Compiled(LowerIf(functions, s, env, TopExits(old(exits)), old(Gen())), ok, After(s, env))
      ensures ok ==> scopeIndex == old(scopeIndex) && exits == old(exits) && values == []
      decreases s, 1
    {
      hide In, Nested, NoneAbove, GlobalTokens, LowerCondition, IfBranches;
      var postIf := builder.CreateBlock(PostIf);
      var thenBlock := builder.CreateBlock(Then);
      var elseBlock := postIf;
      if s.onFalse.Some? {
        elseBlock := builder.CreateBlock(Else);
      }
      ghost var g := Gen();
      ok := VisitCondition(s.cond, env, thenBlock, elseBlock);
      if ok {
        ok := VisitBranches(s, env, postIf);
      }
      IfInParts(functions, s, env, TopExits(old(exits)), old(Gen()), g);
    }

    method VisitBranches(s: Stmt, ghost env: Env, postIf: nat) returns (ok: bool)
      requires s.If? && Valid() && Stores(env) && postIf + 1 < |builder.blocks|
      requires s.onFalse.Some? ==> postIf + 2 < |builder.blocks|
      modifies builder, symbols, this`values, this`slots, this`scopeIndex, this`exits
      ensures Compiled(IfBranches(functions, s, env, TopExits(old(exits)), postIf, old(Gen())), ok, After(s, env))
      ensures ok ==> scopeIndex == old(scopeIndex) && exits == old(exits) && values == []
      decreases s, 0
    {
      hide In, Nested, NoneAbove, GlobalTokens, LowerStmts, AfterList, Emit;
      ok := VisitArm(s.onTrue, env, postIf + 1, postIf);
      if ok && s.onFalse.Some? {
        ok := VisitArm(
          s.onFalse.value, env.(slots := AfterList(s.onTrue, Semantics.Push(env)).slots), postIf + 2, postIf);
      }
      if ok {
        builder.SetInsertPoint(postIf);
        values := [];
      }
    }

    /** The way into a loop; for a `for` loop also its initialiser and its iteration block. */
    method VisitHead(s: Stmt, ghost env: Env, condition: nat, body: nat) returns (ok: bool, next: nat)
      requires s.Loop? && Valid() && Stores(Semantics.Push(env))
      requires condition < |builder.blocks| && body < |builder.blocks|
      modifies builder, symbols, this`values, this`slots, this`scopeIndex, this`exits
      ensures var h := LowerHead(functions, s, env, TopExits(old(exits)), condition, body, old(Gen()));
              (ok <==> h.LoopHead?) && (ok ==> Valid() && h == LoopHead(Gen(), next))
      ensures ok ==> Stores(LoopEnv(s.kind, env)) && scopeIndex == old(scopeIndex) && exits == old(exits)
      decreases s, 0
    {
      hide In, Nested, NoneAbove, GlobalTokens, LowerStmts, Lower, AfterList, Emit;
      ok, next := true, condition;
      match s.kind
      case While => builder.Create(Br(condition));
      case Do => builder.Create(Br(body));
      case For(init, iteration) =>
        ok := VisitList(init, Semantics.Push(env));
        if !ok { return; }
        values := [];
        builder.Create(Br(condition));
        if iteration.Some? {
          next := builder.CreateBlock(LoopIteration);
          builder.SetInsertPoint(next);
          ok := VisitExpr(iteration.value, LoopEnv(s.kind, env));
          if ok { builder.Create(Br(condition)); }
        }
    }

    method VisitLoop(s: Stmt, ghost env: Env) returns (ok: bool)
      requires s.Loop? && Valid() && Stores(env)
      modifies builder, symbols, this`values, this`slots, this`scopeIndex, this`exits
      ensures Compiled(LowerLoop(functions, s, env, TopExits(old(exits)), old(Gen())), ok, After(s, env))
      ensures ok ==> scopeIndex == old(scopeIndex) && exits == old(exits) && values == []
      decreases s, 1, 1
    {
      hide In, Nested, NoneAbove, GlobalTokens, LowerHead, LoopRest, LowerLoop, LowerStmts, LowerStmt, Lower,
        AfterList, Emit, IsTerminator;
      EnterScope(env);
      var postLoop := builder.CreateBlock(PostLoop);
      var condition := builder.CreateBlock(LoopCondition);
      var body := builder.CreateBlock(LoopBody);
      ghost var g := Gen();
      var next;
      ok, next := VisitHead(s, env, condition, body);
      ghost var env1 := LoopEnv(s.kind, env);
      if ok {
        ok := VisitLoopBody(s, env1, postLoop, next);
      }
      if ok {
        LoopRestores(s.kind, env);
        LeaveScope(env1.(slots := slots), env);
      }
      LoopInParts(functions, s, env, TopExits(old(exits)), old(Gen()), g);
    }

    /** The body and then the condition of a loop. The targets of `break` and `continue` are on top of
        their stack while the body is visited. */
    method VisitLoopBody(s: Stmt, ghost env: Env, postLoop: nat, next: nat) returns (ok: bool)
      requires s.Loop? && Valid() && Stores(env) && postLoop + 2 < |builder.blocks|
      modifies builder, symbols, this`values, this`slots, this`scopeIndex, this`exits
      ensures Compiled(LoopRest(functions, s, env, postLoop, next, old(Gen())), ok,
                       env.(slots := AfterList(s.body, Semantics.Push(env)).slots))
      ensures ok ==> scopeIndex == old(scopeIndex) && exits == old(exits) && values == []
      decreases s, 1, 0
    {
      hide In, Nested, NoneAbove, GlobalTokens, LowerStmts, LowerCondition, AfterList, Emit;
      exits := exits + [Exits(postLoop, next)];
      ok := VisitArm(s.body, env, postLoop + 2, next);
      if ok {
        builder.SetInsertPoint(postLoop + 1);
        InScopes(env, env.(slots := slots));
        ok := VisitCondition(s.cond, env, postLoop + 2, postLoop);
        if ok {
          values := [];
          builder.SetInsertPoint(postLoop);
          exits := exits[..|exits| - 1];
        }
      }
    }

    lemma InScopes(a: Env, b: Env)
      requires a.scopes == b.scopes
      ensures In(a) <==> In(b)
    {
    }

    /** Whatever follows a keyword in its scope goes to a block of its own. */
    method VisitJump(s: Stmt, ghost env: Env) returns (ok: bool)
      requires s.Jump? && Valid() && Stores(env)
      modifies builder
      ensures Compiled(LowerStmt(functions, s, env, TopExits(exits), old(Gen())), ok, After(s, env))
      decreases s, 0
    {
      hide Nested, NoneAbove, GlobalTokens, Emit;
      ok := true;
      if s.keyword == Return {
        builder.Create(Ret);
      } else if |exits| == 0 {
        return false;
      } else {
        var top := exits[|exits| - 1];
        builder.Create(Br(if s.keyword == Break then top.onBreak else top.onContinue));
      }
      var unreached := builder.CreateBlock(Null);
      builder.SetInsertPoint(unreached);
    }

    /** Generate a whole program. It fails exactly on the programs the specification rejects. */
    method Generate(root: Stmts, ghost env: Env) returns (ok: bool)
      requires Valid() && Stores(env) && exits == []
      modifies builder, symbols, this`values, this`slots, this`scopeIndex, this`exits
      ensures var t := LowerTree(functions, root, env, old(Gen()));
              && (ok <==> t.Some?)
              && (ok ==> Valid() && builder.blocks == t.value.blocks && builder.regs == t.value.regs)
      ensures ok ==> scopeIndex == old(scopeIndex) && exits == [] && In(env)
    {
      hide Nested, NoneAbove, GlobalTokens, Emit, LowerStmts;
      ok := VisitBlock(root, env);
      if ok {
        builder.Create(Ret);
        builder.SetInsertPoint(|builder.blocks| - 1);
      }
    }
  }

  /** Code once generated is not removed. */
  lemma ArgTypesFrom(vs: seq<Val>, i: nat)
    requires i < |vs|
    ensures ArgTypes(vs[i..]) == [ArgType(vs[i].ty)] + ArgTypes(vs[i + 1..])
  {
    assert vs[i..][1..] == vs[i + 1..];
  }

  lemma StillFilled(fs: Functions, e: Expr, env: Env, g: Gen, b: nat)
    requires b < |g.blocks| && Code(g, b) != []
    ensures var m := Lower(fs, e, env, g); !m.Fail? ==> Code(m.g, b) != []
  {
    hide Lower;
    LowerFrame(fs, e, env, g);
  }

  lemma EmitFills(g: Gen, i: Instr, b: nat)
    requires b < |g.blocks| && (Code(g, b) != [] || b == g.ip)
    ensures Code(Emit(g, i), b) != [] && Code(Emit(g, i), g.ip) != []
  {
  }

  /** The two branches of a conditional whose condition has been generated. */
  function IfBranches(fs: Functions, s: Stmt, env: Env, x: Option<Exits>, post: nat, g: Gen): (r: Option<Gen>)
    requires s.If? && post + 1 < |g.blocks| && (s.onFalse.Some? ==> post + 2 < |g.blocks|)
  {
    var t := LowerStmts(fs, s.onTrue, Semantics.Push(env), x, At(g, post + 1));
    if t.None? then None
    else
      var g2 := Emit(t.value, Br(post));
      if s.onFalse.None? then Some(At(g2, post))
      else
        var env1 := env.(slots := AfterList(s.onTrue, Semantics.Push(env)).slots);
        var f := LowerStmts(fs, s.onFalse.value, Semantics.Push(env1), x, At(g2, post + 2));
        if f.None? then None else Some(At(Emit(f.value, Br(post)), post))
  }

  lemma IfInParts(fs: Functions, s: Stmt, env: Env, x: Option<Exits>, g: Gen, g1: Gen)
    requires s.If?
    requires var g0 := NewBlock(NewBlock(g, PostIf), Then);
             g1 == if s.onFalse.Some? then NewBlock(g0, Else) else g0
    ensures var post := |g.blocks|;
            var c := LowerCondition(fs, s.cond, env, post + 1, if s.onFalse.Some? then post + 2 else post, g1);
            LowerIf(fs, s, env, x, g) == if c.None? then None else IfBranches(fs, s, env, x, post, c.value)
  {
    hide LowerCondition, LowerStmts, Emit, AfterList;
  }

  /** The body and the condition of a loop whose head has been generated. */
  function LoopRest(fs: Functions, s: Stmt, env: Env, post: nat, next: nat, g: Gen): (r: Option<Gen>)
    requires s.Loop? && post + 2 < |g.blocks|
  {
    var b := LowerStmts(fs, s.body, Semantics.Push(env), Some(Exits(post, next)), At(g, post + 2));
    if b.None? then None
    else
      var c := LowerCondition(fs, s.cond, env, post + 2, post, At(Emit(b.value, Br(next)), post + 1));
      if c.None? then None else Some(At(c.value, post))
  }

  lemma LoopInParts(fs: Functions, s: Stmt, env: Env, x: Option<Exits>, g: Gen, g1: Gen)
    requires s.Loop? && g1 == LoopBlocks(g)
    ensures var post := |g.blocks|;
            var h := LowerHead(fs, s, env, x, post + 1, post + 2, g1);
            LowerLoop(fs, s, env, x, g) ==
            if h.NoHead? then None else LoopRest(fs, s, LoopEnv(s.kind, env), post, h.next, h.g)
  {
    hide LowerCondition, LowerStmts, LowerHead, Emit, LoopEnv;
  }

  lemma DeclareChecks(tables: Tables, n: nat, env: Env, name: string)
    requires n >= 1 && env.scopes == Nested(tables, n)
    ensures CanDeclare(env, name) <==> Name(name) !in (if n in tables then tables[n] else map[])
  {
    assert Nested(tables, n)[n - 1] == if n in tables then tables[n] else map[];
  }

  lemma InsertDeclares(was: Tables, n: nat, env: Env, ty: Ty, name: string, now: Tables)
    requires n >= 1 && env.scopes == Nested(was, n) && GlobalTokens(was)
    requires var top := if n in was then was[n] else map[];
             Name(name) !in top && now == was[n := top[Name(name) := Var(env.slots, ty)]]
    ensures CanDeclare(env, name) && Declared(env, ty, name).scopes == Nested(now, n) && GlobalTokens(now)
    ensures Lookup(Nested(now, n), Name(name)) == Some(Var(env.slots, ty))
  {
    assert Nested(was, n)[n - 1] == if n in was then was[n] else map[];
  }

  lemma StillNoneAbove(was: Tables, n: nat, now: Tables)
    requires NoneAbove(was, n) && now.Keys == was.Keys + {n}
    ensures NoneAbove(now, n)
  {
  }

  /** The scope of a loop lies directly inside the scopes around it. */
  lemma LoopRestores(kind: LoopKind, env: Env)
    ensures var e := LoopEnv(kind, env);
            |e.scopes| == |env.scopes| + 1 && e.scopes[..|env.scopes|] == env.scopes
  {
    match kind
    case For(init, _) => BodyRestores(init, env);
    case While =>
    case Do =>
  }
}
