/**
The point generator: it allocates and loads the registered attributes, generates the body, and inserts
the write-back in front of every return. It is proved to build the point kernel.
*/
module PointGenerator {
  import opened Types
  import opened Ast
  import opened Semantics
  import opened Cfg
  import opened Lowering
  import opened Frames
  import Preservation
  import opened SymbolTables
  import opened IrBuilder
  import opened Generator
  import opened CfgShape
  import opened WellFormed
  import opened Kernels
  import opened Uses
  import opened PointKernel

  /** Slots with a single use still have one, all others have more. */
  ghost predicate UsesGrow(body: seq<BasicBlock>, now: seq<BasicBlock>, n: nat) {
    forall slot: nat | slot < n :: UsesOf(body, slot) >= 1 &&
      (if UsesOf(body, slot) == 1 then UsesOf(now, slot) == 1 else UsesOf(now, slot) > 1)
  }

  /** Give every attribute a slot and declare it in table 1. */
  method AllocateAttributes(generator: ComputeGenerator, reg: Registry)
    requires Distinct(reg) && generator.slots == 0 && generator.symbols.tables == map[0 := map[]]
    modifies generator.symbols, generator`slots
    ensures generator.slots == |reg| && generator.symbols.tables == map[0 := map[], 1 := AttributeScope(reg)]
  {
    var symbols := generator.symbols;
    symbols.GetOrInsert(1);
    var i := 0;
    while i < |reg|
      invariant i <= |reg| && generator.slots == i
      invariant symbols.tables == map[0 := map[], 1 := AttributeScope(reg[..i])]
    {
      var slot := generator.slots;
      generator.slots := slot + 1;
      assert reg[..i + 1][..i] == reg[..i];
      AttributeScopeAt(reg[..i]);
      var _ := symbols.Insert(1, reg[i].key, Var(slot, TypeOf(reg[i].key)));
      i := i + 1;
    }
    assert reg[..|reg|] == reg;
  }

  /** Load the attributes that are read. */
  method LoadAttributes(builder: InstructionBuilder, reg: Registry)
    requires builder.Valid() && builder.Gen() == Builder([BasicBlock(Entry, [])], 0, 0)
    modifies builder
    ensures builder.Valid() && builder.Gen() == KernelStart(reg)
  {
    var i := 0;
    while i < |reg|
      invariant i <= |reg| && builder.Valid()
      invariant builder.Gen() == Builder([BasicBlock(Entry, GetterCode(reg[..i]))], 0, 0)
    {
      assert reg[..i + 1][..i] == reg[..i];
      if reg[i].isRead {
        builder.Create(GetAttribute(reg[i].key, i, SizeOf(reg[i].key)));
      }
      assert GetterCode(reg[..i + 1]) == GetterCode(reg[..i]) +
             if reg[i].isRead then [GetAttribute(reg[i].key, i, SizeOf(reg[i].key))] else [];
      assert GetterCode(reg[..i]) + [] == GetterCode(reg[..i]);
      i := i + 1;
    }
    assert reg[..|reg|] == reg;
  }

  /** What every kernel generator starts from. */
  method Prologue(generator: ComputeGenerator, reg: Registry)
    requires Distinct(reg) && generator.Valid() && generator.Gen() == Builder([BasicBlock(Entry, [])], 0, 0)
    requires generator.slots == 0 && generator.scopeIndex == 1 && generator.symbols.tables == map[0 := map[]]
    modifies generator.builder, generator.symbols, generator`slots
    ensures generator.Valid() && generator.Gen() == KernelStart(reg) && generator.Stores(AttributeEnv(reg))
  {
    AllocateAttributes(generator, reg);
    LoadAttributes(generator.builder, reg);
    assert Nested(generator.symbols.tables, 1) == [AttributeScope(reg)];
  }

  /** Every attribute that is read has a use: its load. */
  lemma LoadsAreUses(fs: Functions, root: Stmts, reg: Registry)
    requires Body(fs, root, reg).Some? && forall i | 0 <= i < |reg| :: reg[i].isRead
    ensures var body := Body(fs, root, reg).value.blocks; UsesGrow(body, body, |reg|)
  {
    hide LowerTree, UsesOf, CodeUses, Frame;
    var t := Body(fs, root, reg).value;
    var getters := GetterCode(reg);
    Preservation.TreeShape(fs, root, AttributeEnv(reg), KernelStart(reg), t);
    FrameCode(KernelStart(reg), t);
    var rest := t.blocks[0].code[|getters|..];
    assert t.blocks[0].code == getters + rest;
    forall slot: nat | slot < |reg| ensures UsesOf(t.blocks, slot) >= 1 {
      OneGetter(reg, slot);
      CodeUsesSplit(getters, rest, slot);
      CodeInBlocks(t.blocks, slot, 0);
    }
  }
  class PointComputeGenerator {
    const generator: ComputeGenerator

    /** No program has been generated yet. */
    ghost predicate Unused()
      reads generator, generator.builder, generator.symbols
    {
      && generator.Valid() && generator.Gen() == Builder([BasicBlock(Entry, [])], 0, 0)
      && generator.slots == 0 && generator.scopeIndex == 1 && generator.exits == []
      && generator.symbols.tables == map[0 := map[]]
    }

    constructor (functions: Functions)
      ensures Unused() && generator.functions == functions
      ensures fresh(generator) && fresh(generator.builder) && fresh(generator.symbols)
    {
      generator := new ComputeGenerator(functions);
    }

    /** Generate the point kernel, or report that the program is rejected. */
    method Generate(root: Stmts, reg: Registry) returns (kernel: Option<seq<BasicBlock>>)
      requires Unused() && Distinct(reg) && forall i | 0 <= i < |reg| :: reg[i].isRead
      modifies generator, generator.builder, generator.symbols
      ensures kernel == Kernel(generator.functions, root, reg)
    {
      hide LowerTree, Finish;
      var builder := generator.builder;
      Prologue(generator, reg);
      var ok := generator.Generate(root, AttributeEnv(reg));
      if !ok {
        return None;
      }
      ghost var fs := generator.functions;
      ghost var body := builder.blocks;
      LoadsAreUses(fs, root, reg);
      BodyWellFormed(fs, root, reg);
      if forall i | 0 <= i < |reg| :: !reg[i].isWritten {
        // nothing to write back
        NothingFinished(body, reg, |body|, builder.regs);
        assert body[..|body|] == body;
        return Some(builder.blocks);
      }
      WriteBack(reg, body);
      kernel := Some(builder.blocks);
    }

    /** Insert the write-back in front of the return of every block that has one. */
    method WriteBack(reg: Registry, ghost body: seq<BasicBlock>)
      requires generator.builder.ip < |generator.builder.blocks| && generator.builder.blocks == body
      requires Distinct(reg) && UsesGrow(body, body, |reg|)
      modifies generator.builder
      ensures generator.builder.blocks == Finish(body, reg, |body|, old(generator.builder.regs)).blocks
    {
      hide UsesGrow, UsesOf, SetterCode, Finish, CodeUses;
      var builder := generator.builder;
      FinishStart(body, reg, builder.regs);
      ghost var r0 := builder.regs;
      var b := 0;
      while b < |builder.blocks|
        invariant b <= |body| == |builder.blocks| && builder.ip < |body|
        invariant builder.blocks == Finish(body, reg, b, r0).blocks + body[b..]
        invariant builder.regs == Finish(body, reg, b, r0).regs && UsesGrow(body, builder.blocks, |reg|)
      {
        var code := builder.blocks[b].code;
        if |code| > 0 && code[|code| - 1] == Ret {
          builder.SetInsertPointBeforeEnd(b);
          WriteBackBlock(reg, b, body);
        }
        FinishOn(body, reg, b, r0, builder.blocks[b]);
        b := b + 1;
      }
    }

    /** Insert the write-back into one block. */
    method WriteBackBlock(reg: Registry, b: nat, ghost body: seq<BasicBlock>)
      requires var builder := generator.builder;
               && b < |body| == |builder.blocks| && builder.ip == b && builder.behind == 1
               && builder.blocks[b] == body[b] && EndsInRet(body[b].code)
               && UsesGrow(body, builder.blocks, |reg|)
      modifies generator.builder
      ensures var builder := generator.builder;
              var s := SetterCode(body, reg, |reg|, old(builder.regs));
              var code := body[b].code;
              && builder.blocks == old(builder.blocks)[b := body[b].(code := code[..|code| - 1] + s.code + [Ret])]
              && builder.regs == s.regs && builder.ip == b && UsesGrow(body, builder.blocks, |reg|)
    {
      hide UsesOf, UsesGrow;
      var builder := generator.builder;
      ghost var code, r := body[b].code, builder.regs;
      var i := 0;
      assert code[..|code| - 1] + [] + [Ret] == code;
      while i < |reg|
        invariant i <= |reg| && builder.ip == b && builder.behind == 1
        invariant var s := SetterCode(body, reg, i, r);
                  && builder.blocks == old(builder.blocks)[b := body[b].(code := code[..|code| - 1] + s.code + [Ret])]
                  && builder.regs == s.regs
        invariant UsesGrow(body, builder.blocks, |reg|)
      {
        if reg[i].isWritten {
          Verdict(body, builder.blocks, |reg|, i);
          var oneUse := UsesOf(builder.blocks, i) == 1;
          if !oneUse {
            ghost var before := SetterCode(body, reg, i, r).code;
            ghost var was := builder.blocks[b].code;
            assert was[..|was| - 1] == code[..|code| - 1] + before;
            WriteBackOne(reg[i].key, i, body, |reg|);
            ghost var more := SetterCode(body, reg, i + 1, r).code[|before|..];
            assert code[..|code| - 1] + before + more + [Ret] == code[..|code| - 1] + (before + more) + [Ret];
          }
        }
        i := i + 1;
      }
    }

    /** Insert the write-back of one attribute: scalars are loaded and passed by value. */
    method WriteBackOne(key: Key, slot: nat, ghost body: seq<BasicBlock>, ghost n: nat)
      requires var builder := generator.builder;
               && builder.ip < |builder.blocks| && builder.behind == 1 && EndsInRet(builder.blocks[builder.ip].code)
               && slot < n && UsesGrow(body, builder.blocks, n) && UsesOf(body, slot) != 1
      modifies generator.builder`blocks, generator.builder`regs
      ensures var builder := generator.builder;
              var was := old(builder.blocks)[builder.ip];
              var r := old(builder.regs);
              var scalar := TypeOf(key).IsScalar();
              var more := if scalar then [Load(r, Slot(slot)), SetAttribute(key, SizeOf(key), Reg(r))]
                          else [SetAttribute(key, SizeOf(key), Slot(slot))];
              && builder.blocks ==
                   old(builder.blocks)[builder.ip := was.(code := was.code[..|was.code| - 1] + more + [Ret])]
              && builder.regs == (if scalar then r + 1 else r) && UsesGrow(body, builder.blocks, n)
    {
      hide UsesOf, UsesGrow;
      var builder := generator.builder;
      if TypeOf(key).IsScalar() {
        WriteBackScalar(key, slot, body, n);
      } else {
        ghost var code := builder.blocks[builder.ip].code;
        assert code[|code| - 1..] == [Ret];
        GrowInserted(body, builder.blocks, n, builder.ip, SetAttribute(key, SizeOf(key), Slot(slot)), slot);
        builder.Create(SetAttribute(key, SizeOf(key), Slot(slot)));
      }
    }

    method WriteBackScalar(key: Key, slot: nat, ghost body: seq<BasicBlock>, ghost n: nat)
      requires var builder := generator.builder;
               && builder.ip < |builder.blocks| && builder.behind == 1 && EndsInRet(builder.blocks[builder.ip].code)
               && slot < n && UsesGrow(body, builder.blocks, n) && UsesOf(body, slot) != 1
      modifies generator.builder`blocks, generator.builder`regs
      ensures var builder := generator.builder;
              var was := old(builder.blocks)[builder.ip];
              var r := old(builder.regs);
              var more := [Load(r, Slot(slot)), SetAttribute(key, SizeOf(key), Reg(r))];
              && builder.blocks ==
                   old(builder.blocks)[builder.ip := was.(code := was.code[..|was.code| - 1] + more + [Ret])]
              && builder.regs == r + 1 && UsesGrow(body, builder.blocks, n)
    {
      hide UsesOf, UsesGrow;
      var builder := generator.builder;
      ghost var code := builder.blocks[builder.ip].code;
      ghost var load := Load(builder.regs, Slot(slot));
      ghost var put := SetAttribute(key, SizeOf(key), Reg(builder.regs));
      InsertBothBefore(code[..|code| - 1], load, put);
      assert code == code[..|code| - 1] + [Ret];
      GrowInserted(body, builder.blocks, n, builder.ip, load, slot);
      var o := builder.Define(Load(builder.regs, Slot(slot)));
      GrowInserted(body, builder.blocks, n, builder.ip, put, slot);
      builder.Create(SetAttribute(key, SizeOf(key), o));
    }
  }

  lemma InsertBothBefore(front: seq<Instr>, i: Instr, j: Instr)
    ensures var code := front + [Ret];
            var code1 := front + [i] + [Ret];
            code[..|code| - 1] == front && code[|code| - 1..] == [Ret] &&
            code1[..|code1| - 1] == front + [i] && code1[|code1| - 1..] == [Ret] &&
            front + [i] + [j] + [Ret] == front + [i, j] + [Ret]
  {
  }

  lemma FinishStart(body: seq<BasicBlock>, reg: Registry, r: nat)
    ensures Finish(body, reg, 0, r) == Finished([], r) && body[0..] == body
  {
  }

  /** One more block of the finished function. */
  lemma FinishOn(body: seq<BasicBlock>, reg: Registry, b: nat, r: nat, x: BasicBlock)
    requires b < |body|
    ensures var f := Finish(body, reg, b, r);
            var now := f.blocks + body[b..];
            var code := body[b].code;
            var s := SetterCode(body, reg, |reg|, f.regs);
            Finish(body, reg, b + 1, r) ==
            if EndsInRet(code) then
              Finished(now[b := body[b].(code := code[..|code| - 1] + s.code + [Ret])][..b + 1], s.regs)
            else Finished(now[..b + 1], f.regs)
    ensures var now := Finish(body, reg, b, r).blocks + body[b..];
            now[b := x] == now[b := x][..b + 1] + body[b + 1..] && now == now[..b + 1] + body[b + 1..]
  {
    hide SetterCode;
  }

  lemma Verdict(body: seq<BasicBlock>, now: seq<BasicBlock>, n: nat, slot: nat)
    requires UsesGrow(body, now, n) && slot < n
    ensures UsesOf(now, slot) == 1 <==> UsesOf(body, slot) == 1
  {
  }

  /** An instruction in front of the return of a block that mentions one slot at most. */
  lemma GrowInserted(body: seq<BasicBlock>, now: seq<BasicBlock>, n: nat, b: nat, i: Instr, slot: nat)
    requires UsesGrow(body, now, n) && b < |now| && EndsInRet(now[b].code) && slot < n && UsesOf(body, slot) != 1
    requires forall s: nat | s != slot :: InstrUses(i, s) == 0
    ensures var code := now[b].code;
            UsesGrow(body, now[b := now[b].(code := code[..|code| - 1] + [i] + code[|code| - 1..])], n)
  {
    hide UsesOf;
    var code := now[b].code;
    forall s: nat | s < n
      ensures UsesOf(now[b := now[b].(code := code[..|code| - 1] + [i] + code[|code| - 1..])], s) ==
              UsesOf(now, s) + InstrUses(i, s)
    {
      UsesInserted(now, b, |code| - 1, i, s);
    }
  }

  lemma {:induction false} NothingFinished(body: seq<BasicBlock>, reg: Registry, n: nat, r: nat)
    requires n <= |body| && forall i | 0 <= i < |reg| :: !reg[i].isWritten
    ensures Finish(body, reg, n, r).blocks == body[..n]
  {
    if n > 0 {
      NothingFinished(body, reg, n - 1, r);
      NoSetters(body, reg, |reg|, Finish(body, reg, n - 1, r).regs);
      var code := body[n - 1].code;
      if EndsInRet(code) { assert code[..|code| - 1] + [] + [Ret] == code; }
    }
  }

  lemma NoSetters(body: seq<BasicBlock>, reg: Registry, n: nat, r: nat)
    requires n <= |reg| && forall i | 0 <= i < |reg| :: !reg[i].isWritten
    ensures SetterCode(body, reg, n, r) == Setters([], r)
  {
  }
}
