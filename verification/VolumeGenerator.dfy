/**
The volume generator: after the body has been generated, every return is erased and replaced by a
chain of index tests. It is proved to build the volume kernel.
*/
module VolumeGenerator {
  import opened Types
  import opened Ast
  import opened Semantics
  import opened Cfg
  import opened Lowering
  import opened IrBuilder
  import opened Generator
  import opened Kernels
  import opened Uses
  import P = PointKernel
  import opened PointGenerator
  import V = VolumeKernel

  class VolumeComputeGenerator {
    const generator: ComputeGenerator

    /** No program has been generated yet. */
    ghost predicate Unused()
      reads generator, generator.builder, generator.symbols
    {
      && generator.Valid() && generator.Gen() == Builder([BasicBlock(Entry, [])], 0, 0)
      && generator.slots == 0 && generator.scopeIndex == 1 && generator.exits == []
      && generator.symbols.tables == map[0 := map[]]
    }

    constructor (functions: Functions)
      ensures Unused() && generator.functions == functions
      ensures fresh(generator) && fresh(generator.builder) && fresh(generator.symbols)
    {
      generator := new ComputeGenerator(functions);
    }

    /** Generate the volume kernel, or report that the program is rejected. */
    method Generate(root: Stmts, reg: Registry) returns (kernel: Option<seq<BasicBlock>>)
      requires Unused() && Distinct(reg) && forall i | 0 <= i < |reg| :: reg[i].isRead
      modifies generator, generator.builder, generator.symbols
      ensures kernel == V.Kernel(generator.functions, root, reg)
    {
      hide LowerTree, V.Returns;
      var builder := generator.builder;
      Prologue(generator, reg);
      var ok := generator.Generate(root, AttributeEnv(reg));
      if !ok {
        return None;
      }
      ghost var t := Body(generator.functions, root, reg).value;
      LoadsAreUses(generator.functions, root, reg);
      if forall i | 0 <= i < |reg| :: !reg[i].isWritten {
        // nothing to set
        NothingReplaced(t.blocks, reg, |t.blocks|, t);
        return Some(builder.blocks);
      }
      ReplaceReturns(reg, t);
      kernel := Some(builder.blocks);
    }

    /** Replace the return of every block the body has; blocks added on the way are not visited. */
    method ReplaceReturns(reg: Registry, ghost t: Gen)
      requires generator.builder.Valid() && generator.builder.blocks == t.blocks && generator.builder.regs == t.regs
      requires Distinct(reg) && UsesGrow(t.blocks, t.blocks, |reg|)
      modifies generator.builder
      ensures generator.builder.blocks == V.Returns(t.blocks, reg, |t.blocks|, t).blocks
    {
      hide UsesGrow, UsesOf, V.Chain;
      var builder := generator.builder;
      var count := |builder.blocks|;
      var b := 0;
      while b < count
        invariant b <= count == |t.blocks| && builder.Valid()
        invariant var r := V.Returns(t.blocks, reg, b, t); builder.blocks == r.blocks && builder.regs == r.regs
        invariant UsesGrow(t.blocks, builder.blocks, |reg|)
      {
        V.ReturnsRest(t.blocks, reg, b, t, b);
        var code := builder.blocks[b].code;
        if |code| > 0 && code[|code| - 1] == Ret {
          ghost var r := V.Returns(t.blocks, reg, b, t);
          ReopenGrows(t.blocks, r, |reg|, b);
          builder.EraseTerminator(b);
          builder.SetInsertPoint(b);
          EmitChain(reg, t.blocks);
          RetGrows(t.blocks, builder.Gen(), |reg|);
          builder.Create(Ret);
        }
        b := b + 1;
      }
    }

    /** The tests for all attributes that are written, in registry order. */
    method EmitChain(reg: Registry, ghost body: seq<BasicBlock>)
      requires generator.builder.Valid() && UsesGrow(body, generator.builder.blocks, |reg|)
      modifies generator.builder
      ensures generator.builder.Valid() && UsesGrow(body, generator.builder.blocks, |reg|)
      ensures generator.builder.Gen() == V.Chain(body, reg, |reg|, old(generator.builder.Gen()))
    {
      hide UsesGrow, UsesOf, V.Guard;
      var builder := generator.builder;
      var i := 0;
      while i < |reg|
        invariant i <= |reg| && builder.Valid() && UsesGrow(body, builder.blocks, |reg|)
        invariant builder.Gen() == V.Chain(body, reg, i, old(builder.Gen()))
      {
        if reg[i].isWritten {
          Verdict(body, builder.blocks, |reg|, i);
          var oneUse := UsesOf(builder.blocks, i) == 1;
          if !oneUse {
            GuardGrows(body, builder.Gen(), |reg|, reg[i].key, i);
            EmitGuard(reg[i].key, i);
          }
        }
        i := i + 1;
      }
    }

    /** Test whether an attribute is the one asked for and set the voxel if so. */
    method EmitGuard(key: Key, slot: nat)
      requires generator.builder.Valid()
      modifies generator.builder
      ensures generator.builder.Valid() && generator.builder.Gen() == V.Guard(key, slot, old(generator.builder.Gen()))
    {
      hide EmitDef, Tested, Loaded, Emit;
      var builder := generator.builder;
      var result := builder.Define(IsTarget(builder.regs, key));
      result := builder.BoolComparison(result, Bool);
      var thenBlock := builder.CreateBlock(PostAssign);
      var continueBlock := builder.CreateBlock(PostContinue);
      builder.Create(CondBr(result, thenBlock, continueBlock));
      builder.SetInsertPoint(thenBlock);
      var value := builder.CreateLoad(Val(Slot(slot), TypeOf(key), TypeOf(key).IsScalar()));
      builder.Create(SetVoxel(SizeOf(key), value));
      builder.Create(Br(continueBlock));
      builder.SetInsertPoint(continueBlock);
    }
  }

  lemma {:induction false} NothingReplaced(body: seq<BasicBlock>, reg: Registry, n: nat, g: Gen)
    requires n <= |body| && g.blocks == body && forall i | 0 <= i < |reg| :: !reg[i].isWritten
    ensures V.Returns(body, reg, n, g).blocks == body
  {
    if n > 0 {
      NothingReplaced(body, reg, n - 1, g);
      var h := V.Returns(body, reg, n - 1, g);
      var code := body[n - 1].code;
      if P.EndsInRet(code) {
        NoChain(body, reg, |reg|, V.Reopened(h, n - 1));
        assert code[..|code| - 1] + [Ret] == code;
      }
    }
  }

  lemma NoChain(body: seq<BasicBlock>, reg: Registry, n: nat, g: Gen)
    requires n <= |reg| && forall i | 0 <= i < |reg| :: !reg[i].isWritten
    ensures V.Chain(body, reg, n, g) == g
  {
  }

  lemma ReopenGrows(body: seq<BasicBlock>, g: Gen, n: nat, b: nat)
    requires UsesGrow(body, g.blocks, n) && b < |g.blocks| && P.EndsInRet(g.blocks[b].code)
    ensures UsesGrow(body, V.Reopened(g, b).blocks, n)
  {
    hide UsesOf, CodeUses;
    var code := g.blocks[b].code;
    var k := |code| - 1;
    assert code == code[..k] + [Ret];
    forall s: nat | s < n ensures UsesOf(V.Reopened(g, b).blocks, s) == UsesOf(g.blocks, s) {
      CodeUsesSplit(code[..k], [Ret], s);
      OneInstrUses(Ret, s);
      UsesUpdate(g.blocks, b, g.blocks[b].(code := code[..k]), s);
    }
  }

  lemma RetGrows(body: seq<BasicBlock>, g: Gen, n: nat)
    requires UsesGrow(body, g.blocks, n)
    ensures UsesGrow(body, Emit(g, Ret).blocks, n)
  {
    hide UsesOf, Emit;
    forall s: nat | s < n ensures UsesOf(Emit(g, Ret).blocks, s) == UsesOf(g.blocks, s) {
      UsesEmitted(g, Ret, s);
    }
  }

  /** The test of a guard mentions no slot. */
  lemma TestUses(key: Key, g: Gen, s: nat)
    ensures var hit := EmitDef(g, IsTarget(g.regs, key));
            var t := Tested(hit.g, hit.o, Bool);
            UsesOf(t.g.blocks, s) == UsesOf(g.blocks, s) && t.o.Reg? && |t.g.blocks| == |g.blocks|
  {
    hide UsesOf, Emit;
    var i := IsTarget(g.regs, key);
    var hit := EmitDef(g, i);
    UsesEmitted(g, i, s);
    UsesEmitted(hit.g, Test(hit.g.regs, Bool, hit.o), s);
  }

  lemma SetUses(key: Key, slot: nat, g: Gen, s: nat)
    ensures var x := Loaded(g, Val(Slot(slot), TypeOf(key), TypeOf(key).IsScalar()));
            UsesOf(Emit(x.g, SetVoxel(SizeOf(key), x.o)).blocks, s) == UsesOf(g.blocks, s) + if s == slot then 1 else 0
  {
    hide UsesOf, Emit;
    var x := Loaded(g, Val(Slot(slot), TypeOf(key), TypeOf(key).IsScalar()));
    UsesEmitted(g, Load(g.regs, Slot(slot)), s);
    UsesEmitted(x.g, SetVoxel(SizeOf(key), x.o), s);
  }

  /** A guard adds one use of its slot and none of the others. */
  lemma GuardUses(key: Key, slot: nat, g: Gen, s: nat)
    ensures UsesOf(V.Guard(key, slot, g).blocks, s) == UsesOf(g.blocks, s) + if s == slot then 1 else 0
  {
    hide UsesOf, Emit, EmitDef, Tested, Loaded;
    TestUses(key, g, s);
    var hit := EmitDef(g, IsTarget(g.regs, key));
    var t := Tested(hit.g, hit.o, Bool);
    var thn := |g.blocks|;
    UsesAppend(t.g.blocks, BasicBlock(PostAssign, []), s);
    UsesAppend(NewBlock(t.g, PostAssign).blocks, BasicBlock(PostContinue, []), s);
    var g1 := NewBlock(NewBlock(t.g, PostAssign), PostContinue);
    UsesEmitted(g1, CondBr(t.o, thn, thn + 1), s);
    var g2 := At(Emit(g1, CondBr(t.o, thn, thn + 1)), thn);
    SetUses(key, slot, g2, s);
    var x := Loaded(g2, Val(Slot(slot), TypeOf(key), TypeOf(key).IsScalar()));
    UsesEmitted(Emit(x.g, SetVoxel(SizeOf(key), x.o)), Br(thn + 1), s);
  }

  lemma GuardGrows(body: seq<BasicBlock>, g: Gen, n: nat, key: Key, slot: nat)
    requires UsesGrow(body, g.blocks, n) && slot < n && UsesOf(body, slot) != 1
    ensures UsesGrow(body, V.Guard(key, slot, g).blocks, n)
  {
    hide UsesOf, V.Guard;
    forall s: nat | s < n
      ensures UsesOf(V.Guard(key, slot, g).blocks, s) == UsesOf(g.blocks, s) + if s == slot then 1 else 0
    {
      GuardUses(key, slot, g, s);
    }
  }
}
