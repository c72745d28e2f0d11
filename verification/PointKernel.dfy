/**
The point kernel: attributes are loaded, the body runs, and the written attributes are stored back in
front of every return. It means what the source program means on the attribute values themselves.
*/
module PointKernel {
  import opened Types
  import opened Ast
  import opened Semantics
  import opened Cfg
  import opened Lowering
  import opened Frames
  import opened InstrSimulation
  import opened Preservation
  import opened CfgShape
  import opened WellFormed
  import opened Writes
  import opened Kernels
  import opened Uses

  /** The attributes that are written back: those flagged as written, unless the only use of their slot
      is the load in front of the body. */
  predicate WrittenBack(body: seq<BasicBlock>, a: Access, slot: nat) {
    a.isWritten && UsesOf(body, slot) != 1
  }

  /** The instructions that write the first n attributes back, and the registers used after them. */
  datatype Setters = Setters(code: seq<Instr>, regs: nat)

  function SetterCode(body: seq<BasicBlock>, reg: Registry, n: nat, r: nat): Setters
    requires n <= |reg|
  {
    if n == 0 then Setters([], r)
    else
      var s := SetterCode(body, reg, n - 1, r);
      var a := reg[n - 1];
      if !WrittenBack(body, a, n - 1) then s
      else if TypeOf(a.key).IsScalar() then
        // scalars are loaded and passed by value
        Setters(s.code + [Load(s.regs, Slot(n - 1)), SetAttribute(a.key, SizeOf(a.key), Reg(s.regs))], s.regs + 1)
      else Setters(s.code + [SetAttribute(a.key, SizeOf(a.key), Slot(n - 1))], s.regs)
  }

  predicate EndsInRet(code: seq<Instr>) {
    |code| > 0 && code[|code| - 1] == Ret
  }

  datatype Finished = Finished(blocks: seq<BasicBlock>, regs: nat)

  /** The first n blocks with the write-back in front of every return. */
  function Finish(body: seq<BasicBlock>, reg: Registry, n: nat, r: nat): (f: Finished)
    requires n <= |body|
    ensures |f.blocks| == n
  {
    if n == 0 then Finished([], r)
    else
      var f := Finish(body, reg, n - 1, r);
      var b := body[n - 1];
      if EndsInRet(b.code) then
        var s := SetterCode(body, reg, |reg|, f.regs);
        Finished(f.blocks + [b.(code := b.code[..|b.code| - 1] + s.code + [Ret])], s.regs)
      else Finished(f.blocks + [b], f.regs)
  }

  /** The whole kernel. */
  function Kernel(fs: Functions, root: Stmts, reg: Registry): Option<seq<BasicBlock>> {
    var t := Body(fs, root, reg);
    if t.None? then None else Some(Finish(t.value.blocks, reg, |t.value.blocks|, t.value.regs).blocks)
  }

  // ---------------------------------------------------------------------------------------
  // Meaning of a program on a point

  /** What the program does to the attribute values of one point. */
  ghost predicate PointMeans(cx: Context, root: Stmts, reg: Registry, attrs: Attributes, ext: int,
                             attrs1: Attributes, ext1: int) {
    exists final: State :: PointEnds(cx, root, reg, attrs, ext, final) && attrs1 == Stored(reg, final.mem, attrs) &&
                           ext1 == final.ext
  }

  ghost predicate PointEnds(cx: Context, root: Stmts, reg: Registry, attrs: Attributes, ext: int, final: State) {
    Yields(cx, root, AttributeEnv(reg), BodyState(reg, attrs, State(map[], ext)), final)
  }

  /** The registry covers what the program does: every attribute is read, and every attribute the program
      may write to is flagged as written. */
  ghost predicate Covers(reg: Registry, root: Stmts) {
    && Distinct(reg)
    && forall i | 0 <= i < |reg| :: reg[i].isRead && (reg[i].key in WrittenByAll(root) ==> reg[i].isWritten)
  }

  /** A call of the kernel on one point. */
  function PointCall(attrs: Attributes, ext: int): Config {
    Config(0, 0, 0, map[], State(map[], ext), Io(attrs, []))
  }

  ghost predicate PointRuns(k: Machine, attrs: Attributes, ext: int, attrs1: Attributes, ext1: int) {
    exists n: nat, st: State :: Run(k, PointCall(attrs, ext), n) == Halted(st, Io(attrs1, [])) && st.ext == ext1
  }

  // ---------------------------------------------------------------------------------------
  // The write-back

  lemma {:induction false} FinishAt(body: seq<BasicBlock>, reg: Registry, n: nat, r: nat, b: nat) returns (s: nat)
    requires b < n <= |body|
    ensures var k := Finish(body, reg, n, r).blocks[b];
            if EndsInRet(body[b].code)
            then k.code == body[b].code[..|body[b].code| - 1] + SetterCode(body, reg, |reg|, s).code + [Ret]
            else k == body[b]
  {
    if b < n - 1 {
      s := FinishAt(body, reg, n - 1, r, b);
    } else {
      s := Finish(body, reg, n - 1, r).regs;
    }
  }

  lemma FinishRewrites(body: seq<BasicBlock>, reg: Registry, r: nat)
    requires forall b | 0 <= b < |body| :: Closed(body[b].code)
    ensures Rewritten(body, Finish(body, reg, |body|, r).blocks)
  {
    hide Closed, Finish, SetterCode;
    forall b | 0 <= b < |body|
      ensures |body[b].code| > 0 && RetReplaced(body[b].code, Finish(body, reg, |body|, r).blocks[b].code)
    {
      var s := FinishAt(body, reg, |body|, r, b);
      ClosedFilled(body[b].code);
    }
  }

  /** The attribute values after the first n attributes have been written back. */
  function WroteBack(body: seq<BasicBlock>, reg: Registry, n: nat, mem: Memory, attrs: Attributes): Attributes
    requires n <= |reg|
  {
    if n == 0 then attrs
    else
      var before := WroteBack(body, reg, n - 1, mem, attrs);
      if WrittenBack(body, reg[n - 1], n - 1) then before[reg[n - 1].key := Cells(mem, n - 1, SizeOf(reg[n - 1].key))]
      else before
  }

  ghost predicate CodeAt(m: Machine, c: Config, code: seq<Instr>) {
    c.block < |m.code| && c.pc + |code| <= |m.code[c.block].code| && m.code[c.block].code[c.pc..c.pc + |code|] == code
  }

  lemma CodeParts(m: Machine, c: Config, a: seq<Instr>, b: seq<Instr>)
    requires CodeAt(m, c, a + b)
    ensures CodeAt(m, c, a) && CodeAt(m, c.(pc := c.pc + |a|), b)
  {
    var code := m.code[c.block].code[c.pc..c.pc + |a + b|];
    assert code[..|a|] == a && code[|a|..] == b;
    assert m.code[c.block].code[c.pc..c.pc + |a|] == code[..|a|];
    assert m.code[c.block].code[c.pc + |a|..c.pc + |a| + |b|] == code[|a|..];
  }

  lemma {:induction false} RunSetters(m: Machine, body: seq<BasicBlock>, reg: Registry, n: nat, r: nat, c: Config)
    returns (k: nat, d: Config)
    requires n <= |reg| && CodeAt(m, c, SetterCode(body, reg, n, r).code) && Distinct(reg)
    ensures Run(m, c, k) == Running(d) && d.block == c.block && d.pc == c.pc + |SetterCode(body, reg, n, r).code|
    ensures d.st == c.st && d.io == c.io.(attributes := WroteBack(body, reg, n, c.st.mem, c.io.attributes))
    decreases n
  {
    hide Execute, WrittenBack, CodeAt, Cells, TypeOf;
    k, d := 0, c;
    if n > 0 {
      var s := SetterCode(body, reg, n - 1, r);
      var all := SetterCode(body, reg, n, r).code;
      var last := all[|s.code|..];
      assert all == s.code + last;
      CodeParts(m, c, s.code, last);
      k, d := RunSetters(m, body, reg, n - 1, r, c);
      if WrittenBack(body, reg[n - 1], n - 1) {
        StillAt(m, c.(pc := c.pc + |s.code|), d, last);
        var e := RunSetter(m, reg[n - 1].key, n - 1, s.regs, d);
        RunThen(m, c, k, d, |last|);
        k, d := k + |last|, e;
      }
    }
  }

  lemma StillAt(m: Machine, c: Config, d: Config, code: seq<Instr>)
    requires CodeAt(m, c, code) && d.block == c.block && d.pc == c.pc
    ensures CodeAt(m, d, code)
  {
  }

  /** One attribute is written back. */
  lemma RunSetter(m: Machine, key: Key, slot: nat, r: nat, c: Config) returns (d: Config)
    requires key.Token?
    requires CodeAt(m, c, if TypeOf(key).IsScalar() then [Load(r, Slot(slot)), SetAttribute(key, SizeOf(key), Reg(r))]
                          else [SetAttribute(key, SizeOf(key), Slot(slot))])
    ensures var k := if TypeOf(key).IsScalar() then 2 else 1;
            Run(m, c, k) == Running(d) && d.block == c.block && d.pc == c.pc + k && d.st == c.st
    ensures d.io == c.io.(attributes := c.io.attributes[key := Cells(c.st.mem, slot, SizeOf(key))])
  {
    var code := m.code[c.block].code;
    if TypeOf(key).IsScalar() {
      assert code[c.pc] == code[c.pc..c.pc + 2][0];
      assert code[c.pc + 1] == code[c.pc..c.pc + 2][1];
      var c1 := Step(m, c).c;
      d := Step(m, c1).c;
      assert Cells(c.st.mem, slot, 1) == [Get(c.st.mem, Address(slot, 0))];
      RunOne(m, c, c1);
      RunOne(m, c1, d);
      RunThen(m, c, 1, c1, 1);
    } else {
      assert code[c.pc] == code[c.pc..c.pc + 1][0];
      d := Step(m, c).c;
      RunOne(m, c, d);
    }
  }

  /** A slot that is not written back still holds the value loaded into it. */
  ghost predicate KeepsRest(body: seq<BasicBlock>, reg: Registry, mem: Memory, attrs: Attributes) {
    forall i | 0 <= i < |reg| && !WrittenBack(body, reg[i], i) ::
      reg[i].key in attrs && Cells(mem, i, SizeOf(reg[i].key)) == attrs[reg[i].key]
  }

  lemma {:induction false} WroteBackIsStored(body: seq<BasicBlock>, reg: Registry, n: nat, mem: Memory,
      attrs: Attributes)
    requires n <= |reg| && Distinct(reg) && KeepsRest(body, reg, mem, attrs)
    ensures WroteBack(body, reg, n, mem, attrs) == Stored(reg[..n], mem, attrs)
    decreases n
  {
    if n > 0 {
      var before := reg[..n - 1];
      assert reg[..n][..n - 1] == before;
      WroteBackIsStored(body, reg, n - 1, mem, attrs);
      if !WrittenBack(body, reg[n - 1], n - 1) {
        assert forall i | 0 <= i < |before| :: before[i].key == reg[i].key != reg[n - 1].key;
        StoredElsewhere(before, mem, attrs, reg[n - 1].key);
        var was := Stored(before, mem, attrs);
        assert was[reg[n - 1].key := was[reg[n - 1].key]] == was;
      }
    }
  }

  // ---------------------------------------------------------------------------------------
  // What is skipped has not changed

  lemma {:induction false} OneGetter(reg: Registry, i: nat)
    requires i < |reg| && reg[i].isRead
    ensures CodeUses(GetterCode(reg), i) == 1
  {
    var n := |reg| - 1;
    var last := if reg[n].isRead then [GetAttribute(reg[n].key, n, SizeOf(reg[n].key))] else [];
    CodeUsesSplit(GetterCode(reg[..n]), last, i);
    if |last| == 1 { OneInstrUses(last[0], i); }
    if i < n { OneGetter(reg[..n], i); } else { NoGetter(reg[..n], i); }
  }

  lemma {:induction false} NoGetter(reg: Registry, i: nat)
    requires |reg| <= i
    ensures CodeUses(GetterCode(reg), i) == 0
  {
    if |reg| > 0 {
      var n := |reg| - 1;
      var last := if reg[n].isRead then [GetAttribute(reg[n].key, n, SizeOf(reg[n].key))] else [];
      CodeUsesSplit(GetterCode(reg[..n]), last, i);
      if |last| == 1 { OneInstrUses(last[0], i); }
      NoGetter(reg[..n], i);
    }
  }

  predicate Sets(code: seq<Instr>, key: Key) {
    exists k :: 0 <= k < |code| && code[k].SetAttribute? && code[k].key == key
  }

  lemma {:induction false} SetsExactly(body: seq<BasicBlock>, reg: Registry, n: nat, r: nat, i: nat)
    requires Distinct(reg) && n <= |reg| && i < |reg|
    ensures Sets(SetterCode(body, reg, n, r).code, reg[i].key) <==> i < n && WrittenBack(body, reg[i], i)
    decreases n
  {
    hide WrittenBack, TypeOf, SizeOf;
    if n > 0 {
      SetsExactly(body, reg, n - 1, r, i);
      var before, now := SetterCode(body, reg, n - 1, r).code, SetterCode(body, reg, n, r).code;
      var last := now[|before|..];
      assert now == before + last;
      SetsSplit(before, last, reg[i].key);
      if WrittenBack(body, reg[n - 1], n - 1) {
        assert last[|last| - 1].SetAttribute? && last[|last| - 1].key == reg[n - 1].key;
        assert |last| == 2 ==> last[0].Load?;
        assert Sets(last, reg[i].key) <==> i == n - 1;
      }
    }
  }

  lemma SetsSplit(a: seq<Instr>, b: seq<Instr>, key: Key)
    ensures Sets(a + b, key) <==> Sets(a, key) || Sets(b, key)
  {
    if Sets(a, key) {
      var k :| 0 <= k < |a| && a[k].SetAttribute? && a[k].key == key;
      assert (a + b)[k] == a[k];
    }
    if Sets(b, key) {
      var k :| 0 <= k < |b| && b[k].SetAttribute? && b[k].key == key;
      assert (a + b)[|a| + k] == b[k];
    }
  }

  /** An attribute is written back, or tested for, exactly when it is flagged as written and some instruction of the
      body, its load aside, mentions its slot. */
  lemma WrittenBackExactly(m: Machine, k: Machine, root: Stmts, reg: Registry, i: nat)
    requires IsKernel(m, k, root, reg) && i < |reg| && reg[i].isRead
    ensures WrittenBack(m.code, reg[i], i) <==> reg[i].isWritten && MentionedBehind(m.code, |GetterCode(reg)|, i)
  {
    hide IsKernel, MentionedBehind, GetterCode;
    KernelHead(m, k, root, reg);
    OneGetter(reg, i);
    UsesBehind(m.code, GetterCode(reg), i);
    UsesOfGetters(m.code, GetterCode(reg), i);
  }

  /** The code in place of every return sets exactly these attributes. */
  lemma SetsThese(m: Machine, k: Machine, root: Stmts, reg: Registry, r: nat, i: nat)
    requires IsKernel(m, k, root, reg) && Distinct(reg) && i < |reg| && reg[i].isRead
    ensures Sets(SetterCode(m.code, reg, |reg|, r).code, reg[i].key) <==>
              reg[i].isWritten && MentionedBehind(m.code, |GetterCode(reg)|, i)
  {
    hide IsKernel, MentionedBehind, Sets, SetterCode, GetterCode, WrittenBack;
    SetsExactly(m.code, reg, |reg|, r, i);
    WrittenBackExactly(m, k, root, reg, i);
  }

  lemma UsesOfGetters(blocks: seq<BasicBlock>, getters: seq<Instr>, slot: nat)
    requires |blocks| > 0 && getters <= blocks[0].code
    ensures CodeUses(getters, slot) <= UsesOf(blocks, slot)
  {
    assert blocks[0].code == getters + blocks[0].code[|getters|..];
    CodeUsesSplit(getters, blocks[0].code[|getters|..], slot);
  }

  lemma NoWayBack(blocks: seq<BasicBlock>, b: nat, k: nat)
    requires FunctionWellFormed(blocks) && b < |blocks| && k < |blocks[b].code|
    ensures 0 !in Targets(blocks[b].code[k])
  {
    var code := blocks[b].code;
    assert BlockWellFormed(blocks, b);
    if k < |code| - 1 {
      assert !IsTerminator(code[..|code| - 1][k]);
    } else {
      assert Targets(code[k]) == Out(code);
    }
  }

  lemma BodyWellFormed(fs: Functions, root: Stmts, reg: Registry)
    requires Body(fs, root, reg).Some?
    ensures FunctionWellFormed(Body(fs, root, reg).value.blocks)
  {
    hide LowerTree, FunctionWellFormed;
    GettersPlain(reg);
    GeneratesWellFormed(fs, root, AttributeEnv(reg), KernelStart(reg));
  }

  lemma SkippedIsUntouched(m: Machine, k: Machine, root: Stmts, reg: Registry, i: nat)
    requires IsKernel(m, k, root, reg) && i < |reg| && reg[i].isRead && UsesOf(m.code, i) == 1
    ensures Unmentioned(m, |GetterCode(reg)|, i)
  {
    hide IsKernel, UsesOf, FunctionWellFormed, Body, InstrUses;
    var getters := GetterCode(reg);
    KernelHead(m, k, root, reg);
    OneGetter(reg, i);
    KernelWellFormed(m, k, root, reg);
    forall b, j | 0 <= b < |m.code| && 0 <= j < |m.code[b].code| && (b == 0 ==> |getters| <= j)
      ensures InstrUses(m.code[b].code[j], i) == 0 && 0 !in Targets(m.code[b].code[j])
    {
      NothingElse(m.code, getters, i, b, j);
      NoWayBack(m.code, b, j);
    }
  }

  lemma KernelWellFormed(m: Machine, k: Machine, root: Stmts, reg: Registry)
    requires IsKernel(m, k, root, reg)
    ensures FunctionWellFormed(m.code)
  {
    hide Body, FunctionWellFormed;
    BodyWellFormed(m.cx.functions, root, reg);
  }

  lemma SameCells(a: Memory, b: Memory, slot: nat, size: nat)
    requires SameSlot(a, b, slot)
    ensures Cells(a, slot, size) == Cells(b, slot, size)
  {
  }

  /** Attributes that are not flagged are not written to by the program; flagged ones that are skipped
      are not touched by its code. */
  lemma SkippedIsKept(m: Machine, k: Machine, root: Stmts, reg: Registry, c: Config, c1: Config, j: nat, fuel: nat,
      i: nat)
    requires IsKernel(m, k, root, reg) && Covers(reg, root) && Provides(c.io.attributes, reg) && c.regs == map[]
    requires c1 == c.(block := 0, pc := |GetterCode(reg)|, st := BodyState(reg, c.io.attributes, c.st))
    requires var o := Exec(m.cx, Block(root), AttributeEnv(reg), c1.st, fuel);
             !o.Timeout? && Run(m, c1, j).Running? && Run(m, c1, j).c.st == o.st
    requires i < |reg| && !WrittenBack(m.code, reg[i], i)
    ensures Cells(Run(m, c1, j).c.st.mem, i, SizeOf(reg[i].key)) == c.io.attributes[reg[i].key]
  {
    hide IsKernel, Exec, Cells, SameSlot, Apart, Owns, Unmentioned;
    var d := Run(m, c1, j).c;
    LoadedCells(reg, c.io.attributes, c.st.mem, i);
    assert SameSlot(c1.st.mem, d.st.mem, i) by {
      if reg[i].isWritten {
        SkippedIsUntouched(m, k, root, reg, i);
        RunElsewhere(m, c1, j, |GetterCode(reg)|, i);
      } else {
        AttributesApart(reg);
        WriteClassificationSound(m.cx, root, AttributeEnv(reg), c1.st, fuel, |reg|, reg[i].key, i);
      }
    }
    SameCells(c1.st.mem, d.st.mem, i, SizeOf(reg[i].key));
  }

  // ---------------------------------------------------------------------------------------
  // The kernel means what the program means

  lemma KernelIsRewritten(m: Machine, k: Machine, root: Stmts, reg: Registry)
    requires Body(m.cx.functions, root, reg).Some? && m.code == Body(m.cx.functions, root, reg).value.blocks
    requires m.cx == k.cx && m.args == k.args && Kernel(m.cx.functions, root, reg) == Some(k.code)
    ensures IsKernel(m, k, root, reg)
  {
    hide Finish, Closed, LowerTree, Rewritten;
    BodyWellFormed(m.cx.functions, root, reg);
    forall b | 0 <= b < |m.code| ensures Closed(m.code[b].code) {
      assert BlockWellFormed(m.code, b);
    }
    FinishRewrites(m.code, reg, Body(m.cx.functions, root, reg).value.regs);
  }

  /** From a return of the body the kernel writes back and returns. */
  lemma RunEpilogue(m: Machine, k: Machine, root: Stmts, reg: Registry, d: Config) returns (n: nat)
    requires IsKernel(m, k, root, reg) && Kernel(m.cx.functions, root, reg) == Some(k.code)
    requires AtReturn(m, d) && Distinct(reg)
    ensures Run(k, d, n) == Halted(d.st, d.io.(attributes := WroteBack(m.code, reg, |reg|, d.st.mem, d.io.attributes)))
  {
    hide Body, Rewritten, Finish, SetterCode, FunctionWellFormed, Execute, WroteBack;
    var code := m.code[d.block].code;
    var s := FinishAt(m.code, reg, |m.code|, Body(m.cx.functions, root, reg).value.regs, d.block);
    KernelWellFormed(m, k, root, reg);
    OnlyLastReturns(m.code, d.block, d.pc);
    var setters := SetterCode(m.code, reg, |reg|, s).code;
    var kernel := k.code[d.block].code;
    assert kernel == code[..d.pc] + setters + [Ret];
    assert kernel[d.pc..d.pc + |setters|] == setters;
    var n1, e := RunSetters(k, m.code, reg, |reg|, s, d);
    assert kernel[e.pc] == Ret;
    assert Step(k, e) == Halted(e.st, e.io) by { StepReturn(k, e); }
    assert Run(k, e, 1) == Halted(e.st, e.io);
    RunThen(k, d, n1, e, 1);
    n := n1 + 1;
  }

  lemma StepReturn(m: Machine, c: Config)
    requires AtReturn(m, c)
    ensures Step(m, c) == Halted(c.st, c.io)
  {
  }

  lemma OnlyLastReturns(blocks: seq<BasicBlock>, b: nat, k: nat)
    requires FunctionWellFormed(blocks) && b < |blocks| && k < |blocks[b].code| && blocks[b].code[k] == Ret
    ensures k == |blocks[b].code| - 1 && EndsInRet(blocks[b].code)
  {
    var code := blocks[b].code;
    assert BlockWellFormed(blocks, b);
    assert k < |code| - 1 ==> !IsTerminator(code[..|code| - 1][k]);
  }

  /** The kernel against the program on a given amount of fuel. */
  lemma PointKernelRuns(m: Machine, k: Machine, root: Stmts, reg: Registry, attrs: Attributes, ext: int, fuel: nat)
    returns (n: nat)
    requires IsKernel(m, k, root, reg) && Kernel(m.cx.functions, root, reg) == Some(k.code)
    requires Covers(reg, root) && Provides(attrs, reg)
    ensures var o := Exec(m.cx, Block(root), AttributeEnv(reg), BodyState(reg, attrs, State(map[], ext)), fuel);
            var p := Run(k, PointCall(attrs, ext), n);
            if o.Timeout? then p.Running? && n >= fuel
            else (o.Normal? || o.Returned?) && p == Halted(o.st, Io(Stored(reg, o.st.mem, attrs), []))
  {
    hide IsKernel, Kernel, Exec, WroteBack, Stored, WrittenBack;
    var c := PointCall(attrs, ext);
    var n1, d, c1 := KernelRuns(m, k, root, reg, c, fuel);
    var o := Exec(m.cx, Block(root), AttributeEnv(reg), BodyState(reg, attrs, c.st), fuel);
    n := n1;
    if !o.Timeout? {
      var j: nat :| Run(m, c1, j) == Running(d);
      forall i | 0 <= i < |reg| && !WrittenBack(m.code, reg[i], i)
        ensures reg[i].key in attrs && Cells(d.st.mem, i, SizeOf(reg[i].key)) == attrs[reg[i].key]
      {
        SkippedIsKept(m, k, root, reg, c, c1, j, fuel, i);
      }
      WroteBackIsStored(m.code, reg, |reg|, d.st.mem, attrs);
      assert reg[..|reg|] == reg;
      var n2 := RunEpilogue(m, k, root, reg, d);
      RunThen(k, c, n1, d, n2);
      n := n1 + n2;
    }
  }

  /** For every accepted program: a call of the kernel ends exactly when the program does, and leaves
      exactly the attribute values the program leaves. */
  lemma PointKernelCorrect(m: Machine, k: Machine, root: Stmts, reg: Registry, attrs: Attributes, ext: int,
                           attrs1: Attributes, ext1: int)
    requires IsKernel(m, k, root, reg) && Kernel(m.cx.functions, root, reg) == Some(k.code)
    requires Covers(reg, root) && Provides(attrs, reg)
    ensures PointRuns(k, attrs, ext, attrs1, ext1) <==> PointMeans(m.cx, root, reg, attrs, ext, attrs1, ext1)
  {
    hide IsKernel, Kernel, Exec, Stored, Covers;
    var st := BodyState(reg, attrs, State(map[], ext));
    var c := PointCall(attrs, ext);
    if PointMeans(m.cx, root, reg, attrs, ext, attrs1, ext1) {
      var final: State :| PointEnds(m.cx, root, reg, attrs, ext, final) && attrs1 == Stored(reg, final.mem, attrs) &&
                          ext1 == final.ext;
      var fuel: nat :| YieldsWithin(m.cx, root, AttributeEnv(reg), st, final, fuel);
      var n := PointKernelRuns(m, k, root, reg, attrs, ext, fuel);
      assert Run(k, c, n) == Halted(final, Io(attrs1, []));
    }
    if PointRuns(k, attrs, ext, attrs1, ext1) {
      var n: nat, last: State :| Run(k, c, n) == Halted(last, Io(attrs1, [])) && last.ext == ext1;
      var n2 := PointKernelRuns(m, k, root, reg, attrs, ext, n + 1);
      if Run(k, c, n2).Running? {
        RunOver(k, c, n, n2);
      } else {
        RunsAgree(k, c, n, n2);
        assert YieldsWithin(m.cx, root, AttributeEnv(reg), st, last, n + 1);
        assert PointEnds(m.cx, root, reg, attrs, ext, last);
      }
    }
  }
}
