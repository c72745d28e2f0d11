/**
The volume kernel: every return of the body is replaced by a chain of index tests that sets at most
one voxel. It leaves the body alone and writes exactly the attribute the caller asks for.
*/
module VolumeKernel {
  import opened Types
  import opened Ast
  import opened Overloads
  import opened Semantics
  import opened Cfg
  import opened Lowering
  import opened Frames
  import opened InstrSimulation
  import opened ExprSimulation
  import opened Preservation
  import opened CfgShape
  import opened WellFormed
  import opened Kernels
  import opened Uses
  import P = PointKernel

  /** The test for one attribute and the assignment it guards. */
  function Guard(key: Key, slot: nat, g: Gen): (h: Gen)
    ensures |g.blocks| + 2 == |h.blocks|
  {
    var hit := EmitDef(g, IsTarget(g.regs, key));
    var t := Tested(hit.g, hit.o, Bool);
    var thn := |g.blocks|;
    var cont := thn + 1;
    var g1 := NewBlock(NewBlock(t.g, PostAssign), PostContinue);
    var g2 := At(Emit(g1, CondBr(t.o, thn, cont)), thn);
    var x := Loaded(g2, Val(Slot(slot), TypeOf(key), TypeOf(key).IsScalar()));
    At(Emit(Emit(x.g, SetVoxel(SizeOf(key), x.o)), Br(cont)), cont)
  }

  /** The tests for the first n attributes. */
  function Chain(body: seq<BasicBlock>, reg: Registry, n: nat, g: Gen): (h: Gen)
    requires n <= |reg|
    ensures |g.blocks| <= |h.blocks|
  {
    if n == 0 then g
    else
      var h := Chain(body, reg, n - 1, g);
      if P.WrittenBack(body, reg[n - 1], n - 1) then Guard(reg[n - 1].key, n - 1, h) else h
  }

  /** A block without its last instruction, ready to be continued. */
  function Reopened(g: Gen, b: nat): Gen
    requires b < |g.blocks| && |g.blocks[b].code| > 0
  {
    var code := g.blocks[b].code;
    Builder(g.blocks[b := g.blocks[b].(code := code[..|code| - 1])], b, g.regs)
  }

  /** The function once the returns in the first n blocks of the body have been replaced. */
  function Returns(body: seq<BasicBlock>, reg: Registry, n: nat, g: Gen): (h: Gen)
    requires n <= |body| <= |g.blocks|
    ensures |g.blocks| <= |h.blocks|
  {
    if n == 0 then g
    else
      var h := Returns(body, reg, n - 1, g);
      if P.EndsInRet(body[n - 1].code) && |h.blocks[n - 1].code| > 0 then
        Emit(Chain(body, reg, |reg|, Reopened(h, n - 1)), Ret)
      else h
  }

  function Kernel(fs: Functions, root: Stmts, reg: Registry): Option<seq<BasicBlock>> {
    var t := Body(fs, root, reg);
    if t.None? then None else Some(Returns(t.value.blocks, reg, |t.value.blocks|, t.value).blocks)
  }

  /** The voxels the first n tests set. */
  function Voxels(body: seq<BasicBlock>, reg: Registry, n: nat, args: Arguments, mem: Memory): seq<seq<int>>
    requires n <= |reg|
  {
    if n == 0 then []
    else
      Voxels(body, reg, n - 1, args, mem) +
      if P.WrittenBack(body, reg[n - 1], n - 1) && Selects(args, reg[n - 1].key)
      then [Cells(mem, n - 1, SizeOf(reg[n - 1].key))] else []
  }

  predicate Selects(args: Arguments, key: Key) {
    key in args.indices && args.indices[key] == args.writeIndex
  }

  // ---------------------------------------------------------------------------------------
  // Frames

  lemma GuardFrame(key: Key, slot: nat, g: Gen)
    ensures Frame(g, Guard(key, slot, g))
  {
    hide Frame, EmitDef, Tested, Loaded, Emit;
    FrameSelf(g);
    var i := IsTarget(g.regs, key);
    var hit := EmitDef(g, i);
    ThenDefine(g, g, i);
    ThenTest(g, hit.g, hit.o, Bool);
    var t := Tested(hit.g, hit.o, Bool);
    var thn := |g.blocks|;
    ThenBlock(g, t.g, PostAssign);
    ThenBlock(g, NewBlock(t.g, PostAssign), PostContinue);
    var g1 := NewBlock(NewBlock(t.g, PostAssign), PostContinue);
    ThenEmit(g, g1, CondBr(t.o, thn, thn + 1));
    var g2 := Emit(g1, CondBr(t.o, thn, thn + 1));
    ThenAt(g, g2, thn);
    var v := Val(Slot(slot), TypeOf(key), TypeOf(key).IsScalar());
    ThenLoad(g, At(g2, thn), v);
    var x := Loaded(At(g2, thn), v);
    ThenEmit(g, x.g, SetVoxel(SizeOf(key), x.o));
    var g3 := Emit(x.g, SetVoxel(SizeOf(key), x.o));
    ThenEmit(g, g3, Br(thn + 1));
    ThenAt(g, Emit(g3, Br(thn + 1)), thn + 1);
  }

  lemma {:induction false} ChainFrame(body: seq<BasicBlock>, reg: Registry, n: nat, g: Gen)
    requires n <= |reg|
    ensures Frame(g, Chain(body, reg, n, g))
  {
    hide Frame, Guard, P.WrittenBack;
    FrameSelf(g);
    if n > 0 {
      ChainFrame(body, reg, n - 1, g);
      var h := Chain(body, reg, n - 1, g);
      GuardFrame(reg[n - 1].key, n - 1, h);
      FrameTrans(g, h, Guard(reg[n - 1].key, n - 1, h));
    }
  }

  /** Blocks of the body that have not been visited are as they were. */
  lemma {:induction false} ReturnsRest(body: seq<BasicBlock>, reg: Registry, n: nat, g: Gen, b: nat)
    requires n <= |body| && g.blocks == body && n <= b < |body|
    ensures Returns(body, reg, n, g).blocks[b] == body[b]
  {
    hide P.EndsInRet, Chain;
    if n > 0 {
      ReturnsRest(body, reg, n - 1, g, b);
      ReturnsRest(body, reg, n - 1, g, n - 1);
      var h := Returns(body, reg, n - 1, g);
      if |h.blocks[n - 1].code| > 0 {
        ChainFrame(body, reg, |reg|, Reopened(h, n - 1));
        BlockKept(Reopened(h, n - 1), Chain(body, reg, |reg|, Reopened(h, n - 1)), Ret, b);
      }
    }
  }

  lemma BlockKept(g: Gen, h: Gen, i: Instr, b: nat)
    requires Frame(g, h) && b < |g.blocks| && b != g.ip
    ensures Emit(h, i).blocks[b] == g.blocks[b]
  {
  }

  /** Blocks that have been visited, and those they brought along, are not changed again. */
  lemma {:induction false} ReturnsKeep(body: seq<BasicBlock>, reg: Registry, n: nat, k: nat, g: Gen, b: nat)
    requires n <= k <= |body| && g.blocks == body
    requires b < |Returns(body, reg, n, g).blocks| && (b < n || |body| <= b)
    ensures b < |Returns(body, reg, k, g).blocks| &&
      Returns(body, reg, k, g).blocks[b] == Returns(body, reg, n, g).blocks[b]
    decreases k
  {
    hide P.EndsInRet, Chain;
    if n < k {
      ReturnsKeep(body, reg, n, k - 1, g, b);
      var h := Returns(body, reg, k - 1, g);
      if |h.blocks[k - 1].code| > 0 {
        ChainFrame(body, reg, |reg|, Reopened(h, k - 1));
        BlockKept(Reopened(h, k - 1), Chain(body, reg, |reg|, Reopened(h, k - 1)), Ret, b);
      }
    }
  }

  // ---------------------------------------------------------------------------------------
  // Running the chain

  /** Comparing a boolean with zero. */
  predicate BoolTest(ops: Ops) {
    ops.truth(Bool, 1) && !ops.truth(Bool, 0)
  }

  datatype GuardParts = GuardParts(test: Gen, enter: Gen, done: Gen)

  function PartsOf(key: Key, slot: nat, g: Gen): GuardParts {
    var hit := EmitDef(g, IsTarget(g.regs, key));
    var t := Tested(hit.g, hit.o, Bool);
    var thn := |g.blocks|;
    var g1 := NewBlock(NewBlock(t.g, PostAssign), PostContinue);
    var g2 := Emit(g1, CondBr(t.o, thn, thn + 1));
    var x := Loaded(At(g2, thn), Val(Slot(slot), TypeOf(key), TypeOf(key).IsScalar()));
    GuardParts(t.g, At(g2, thn), Emit(x.g, SetVoxel(SizeOf(key), x.o)))
  }

  /** The finished function contains the pieces of a guard. */
  lemma GuardShape(key: Key, slot: nat, g: Gen, code: seq<BasicBlock>)
    requires Within(g, Guard(key, slot, g), code)
    ensures var p := PartsOf(key, slot, g);
            var thn := |g.blocks|;
            var t := Tested(EmitDef(g, IsTarget(g.regs, key)).g, EmitDef(g, IsTarget(g.regs, key)).o, Bool);
            && Embeds(Emit(p.test, CondBr(t.o, thn, thn + 1)), code) && Code(p.enter, thn) == []
            && Embeds(Emit(p.done, Br(thn + 1)), code) && Code(Guard(key, slot, g), thn + 1) == []
  {
    hide Within;
    var h := Guard(key, slot, g);
    var p := PartsOf(key, slot, g);
    RegionAt(g, h, code, g.ip);
    RegionAt(g, h, code, |g.blocks|);
  }

  lemma RegionAt(g: Gen, h: Gen, code: seq<BasicBlock>, b: nat)
    requires Within(g, h, code) && b < |h.blocks| && (b == g.ip || |g.blocks| <= b)
    ensures b < |code| && Code(h, b) <= code[b].code
  {
  }

  lemma SimTarget(m: Machine, key: Key, g: Gen, c: Config) returns (n: nat, d: Config)
    requires Stands(g, c) && key in m.args.indices && BoolTest(m.cx.ops)
    requires var hit := EmitDef(g, IsTarget(g.regs, key));
             var t := Tested(hit.g, hit.o, Bool);
             Embeds(Emit(t.g, CondBr(t.o, |g.blocks|, |g.blocks| + 1)), m.code)
    ensures Run(m, c, n) == Running(d) && d.pc == 0 && d.st == c.st && d.io == c.io
    ensures d.block == if Selects(m.args, key) then |g.blocks| else |g.blocks| + 1
  {
    hide Embeds, EmitDef, Tested, Emit;
    var i := IsTarget(g.regs, key);
    var hit := EmitDef(g, i);
    var t := Tested(hit.g, hit.o, Bool);
    var br := CondBr(t.o, |g.blocks|, |g.blocks| + 1);
    var k := if Selects(m.args, key) then 1 else 0;
    EmitEmbeds(t.g, br, m.code);
    TestedEmbeds(hit.g, hit.o, Bool, m.code);
    var c1 := StepDefine(m, g, i, c, Num(k));
    var c2 := SimTested(m, hit.g, hit.o, Bool, k, c1);
    StepEmitted(m, t.g, br, c2);
    d := Goto(c2, if k == 1 then |g.blocks| else |g.blocks| + 1).c;
    RunOne(m, c2, d);
    RunThen(m, c1, 1, c2, 1);
    RunThen(m, c, 1, c1, 2);
    n := 3;
  }

  /** The guarded assignment. */
  lemma SimSet(m: Machine, key: Key, slot: nat, g: Gen, cont: nat, c: Config) returns (n: nat, d: Config)
    requires Stands(g, c) && key.Token?
    requires var x := Loaded(g, Val(Slot(slot), TypeOf(key), TypeOf(key).IsScalar()));
             Embeds(Emit(Emit(x.g, SetVoxel(SizeOf(key), x.o)), Br(cont)), m.code)
    ensures Run(m, c, n) == Running(d) && d.block == cont && d.pc == 0 && d.st == c.st
    ensures d.io == c.io.(voxels := c.io.voxels + [Cells(c.st.mem, slot, SizeOf(key))])
  {
    hide Embeds, Emit, Execute, EmitDef;
    var v := Val(Slot(slot), TypeOf(key), TypeOf(key).IsScalar());
    var x := Loaded(g, v);
    var i := SetVoxel(SizeOf(key), x.o);
    EmitEmbeds(Emit(x.g, i), Br(cont), m.code);
    EmitEmbeds(x.g, i, m.code);
    var n1, c1 := 0, c;
    if TypeOf(key).IsScalar() {
      n1, c1 := SimLoaded(m, g, v, Ptr(Address(slot, 0)), c);
      MovesStands(m, c, n1, c1, x.g, g.regs);
    }
    StepEmitted(m, x.g, i, c1);
    var ns := Cells(c.st.mem, slot, SizeOf(key));
    ExecuteSet(m, c1, SizeOf(key), x.o, ns, TypeOf(key).IsScalar(), slot);
    var c2 := c1.(pc := c1.pc + 1, io := c1.io.(voxels := c1.io.voxels + [ns]));
    RunOne(m, c1, c2);
    assert Stands(Emit(x.g, i), c2) by { EmitLonger(x.g, i); }
    StepEmitted(m, Emit(x.g, i), Br(cont), c2);
    ExecuteBr(m, c2, cont);
    d := Goto(c2, cont).c;
    RunOne(m, c2, d);
    RunThen(m, c1, 1, c2, 1);
    RunThen(m, c, n1, c1, 2);
    n := n1 + 2;
  }

  lemma EmitLonger(g: Gen, i: Instr)
    ensures |Code(Emit(g, i), g.ip)| == |Code(g, g.ip)| + 1
  {
  }

  lemma ExecuteBr(m: Machine, c: Config, b: nat)
    ensures Execute(m, c, Br(b)) == Goto(c, b)
  {
  }

  lemma ExecuteSet(m: Machine, c: Config, size: nat, o: Operand, ns: seq<int>, scalar: bool, slot: nat)
    requires ns == Cells(c.st.mem, slot, size) && (scalar ==> size == 1)
    requires Fetch(c.regs, o) == Some(if scalar then Num(Get(c.st.mem, Address(slot, 0))) else Ptr(Address(slot, 0)))
    ensures Execute(m, c, SetVoxel(size, o)) == Running(c.(pc := c.pc + 1, io := c.io.(voxels := c.io.voxels + [ns])))
  {
    assert scalar ==> ns == [Get(c.st.mem, Address(slot, 0))];
  }

  lemma SimGuard(m: Machine, key: Key, slot: nat, g: Gen, c: Config) returns (n: nat, d: Config)
    requires Stands(g, c) && Within(g, Guard(key, slot, g), m.code)
    requires key.Token? && key in m.args.indices && BoolTest(m.cx.ops)
    ensures Run(m, c, n) == Running(d) && Stands(Guard(key, slot, g), d) && d.st == c.st
    ensures d.io == c.io.(voxels := c.io.voxels +
              if Selects(m.args, key) then [Cells(c.st.mem, slot, SizeOf(key))] else [])
  {
    hide Within, Embeds, EmitDef, Tested, Emit, Loaded;
    GuardShape(key, slot, g, m.code);
    var p := PartsOf(key, slot, g);
    var thn := |g.blocks|;
    n, d := SimTarget(m, key, g, c);
    if Selects(m.args, key) {
      var n1, e := SimSet(m, key, slot, p.enter, thn + 1, d);
      RunThen(m, c, n, d, n1);
      n, d := n + n1, e;
    } else {
      assert c.io.voxels + [] == c.io.voxels;
    }
  }

  lemma {:induction false} SimChain(m: Machine, body: seq<BasicBlock>, reg: Registry, n: nat, g: Gen, c: Config)
    returns (k: nat, d: Config)
    requires n <= |reg| && Distinct(reg) && Stands(g, c) && Within(g, Chain(body, reg, n, g), m.code)
    requires (forall i | 0 <= i < |reg| :: reg[i].key in m.args.indices) && BoolTest(m.cx.ops)
    ensures Run(m, c, k) == Running(d) && Stands(Chain(body, reg, n, g), d) && d.st == c.st
    ensures d.io == c.io.(voxels := c.io.voxels + Voxels(body, reg, n, m.args, c.st.mem))
  {
    hide Within, Stands, Guard, P.WrittenBack, Frame, BoolTest;
    k, d := 0, c;
    if n == 0 {
      assert c.io.voxels + [] == c.io.voxels;
    } else {
      var h := Chain(body, reg, n - 1, g);
      var key := reg[n - 1].key;
      ChainFrame(body, reg, n - 1, g);
      GuardFrame(key, n - 1, h);
      FrameSelf(h);
      if P.WrittenBack(body, reg[n - 1], n - 1) {
        Split(g, h, Guard(key, n - 1, h), m.code);
      }
      k, d := SimChain(m, body, reg, n - 1, g, c);
      var before := Voxels(body, reg, n - 1, m.args, c.st.mem);
      if P.WrittenBack(body, reg[n - 1], n - 1) {
        var j, e := SimGuard(m, key, n - 1, h, d);
        RunThen(m, c, k, d, j);
        k, d := k + j, e;
        var last := if Selects(m.args, key) then [Cells(c.st.mem, n - 1, SizeOf(key))] else [];
        assert c.io.voxels + before + last == c.io.voxels + (before + last);
      } else {
        assert before + [] == before;
      }
    }
  }

  // ---------------------------------------------------------------------------------------
  // Which voxel is set

  /** Each attribute has an index of its own. */
  ghost predicate OwnIndices(args: Arguments, reg: Registry) {
    && (forall i | 0 <= i < |reg| :: reg[i].key in args.indices)
    && (forall i, j | 0 <= i < j < |reg| :: args.indices[reg[i].key] != args.indices[reg[j].key])
  }

  /** The attribute that is asked for and has a guard. */
  predicate Target(body: seq<BasicBlock>, reg: Registry, args: Arguments, i: nat) {
    i < |reg| && P.WrittenBack(body, reg[i], i) && Selects(args, reg[i].key)
  }

  /** One voxel is set, to the final value of the slot, when the index asked for belongs to an attribute
      that is written; otherwise none is. */
  lemma {:induction false} VoxelsAre(body: seq<BasicBlock>, reg: Registry, n: nat, args: Arguments, mem: Memory)
    requires n <= |reg| && OwnIndices(args, reg)
    ensures forall i | 0 <= i < n && Target(body, reg, args, i) ::
              Voxels(body, reg, n, args, mem) == [Cells(mem, i, SizeOf(reg[i].key))]
    ensures (forall i | 0 <= i < n :: !Target(body, reg, args, i)) ==> Voxels(body, reg, n, args, mem) == []
  {
    hide P.WrittenBack;
    if n > 0 {
      VoxelsAre(body, reg, n - 1, args, mem);
      if Target(body, reg, args, n - 1) {
        // no other attribute has this index
        assert forall i | 0 <= i < n - 1 :: !Target(body, reg, args, i);
      } else {
        assert Voxels(body, reg, n, args, mem) == Voxels(body, reg, n - 1, args, mem);
      }
    }
  }

  /** When the index asked for is that of attribute i, a voxel is set exactly when the attribute is flagged as
      written and the body mentions its slot. */
  lemma VoxelSetExactly(m: Machine, k: Machine, root: Stmts, reg: Registry, mem: Memory, i: nat)
    requires IsKernel(m, k, root, reg) && OwnIndices(m.args, reg) && i < |reg| && reg[i].isRead
    requires Selects(m.args, reg[i].key)
    ensures |Voxels(m.code, reg, |reg|, m.args, mem)| ==
            if reg[i].isWritten && MentionedBehind(m.code, |GetterCode(reg)|, i) then 1 else 0
  {
    hide IsKernel, MentionedBehind, GetterCode, P.WrittenBack, Voxels;
    P.WrittenBackExactly(m, k, root, reg, i);
    VoxelsAre(m.code, reg, |reg|, m.args, mem);
    forall j | 0 <= j < |reg| && Target(m.code, reg, m.args, j) ensures j == i {
      assert Selects(m.args, reg[j].key);
    }
  }

  // ---------------------------------------------------------------------------------------
  // The kernel means what the program means

  ghost predicate VolumeRuns(k: Machine, attrs: Attributes, ext: int, voxels: seq<seq<int>>, ext1: int) {
    exists n: nat, st: State :: Run(k, P.PointCall(attrs, ext), n) == Halted(st, Io(attrs, voxels)) && st.ext == ext1
  }

  /** What the program does at one voxel: it ends in some state, and of its attributes the one asked for
      is set. */
  ghost predicate VolumeMeans(m: Machine, root: Stmts, reg: Registry, attrs: Attributes, ext: int,
                              voxels: seq<seq<int>>, ext1: int) {
    exists final: State :: P.PointEnds(m.cx, root, reg, attrs, ext, final) &&
                           voxels == Voxels(m.code, reg, |reg|, m.args, final.mem) && ext1 == final.ext
  }

  lemma ReturnsRewrite(body: seq<BasicBlock>, reg: Registry, g: Gen)
    requires g.blocks == body && forall b | 0 <= b < |body| :: Closed(body[b].code)
    ensures Rewritten(body, Returns(body, reg, |body|, g).blocks)
  {
    hide Closed, Chain, Frame;
    var all := Returns(body, reg, |body|, g);
    forall b | 0 <= b < |body| ensures |body[b].code| > 0 && RetReplaced(body[b].code, all.blocks[b].code) {
      ClosedFilled(body[b].code);
      var h := Returns(body, reg, b, g);
      ReturnsRest(body, reg, b, g, b);
      ReturnsKeep(body, reg, b + 1, |body|, g, b);
      if P.EndsInRet(body[b].code) {
        ChainFrame(body, reg, |reg|, Reopened(h, b));
        PrefixKept(Reopened(h, b), Chain(body, reg, |reg|, Reopened(h, b)), Ret);
      }
    }
  }

  lemma PrefixKept(g: Gen, h: Gen, i: Instr)
    requires Frame(g, h)
    ensures Code(g, g.ip) <= Code(Emit(h, i), g.ip)
  {
  }

  lemma VolumeIsRewritten(m: Machine, k: Machine, root: Stmts, reg: Registry)
    requires Body(m.cx.functions, root, reg).Some? && m.code == Body(m.cx.functions, root, reg).value.blocks
    requires m.cx == k.cx && m.args == k.args && Kernel(m.cx.functions, root, reg) == Some(k.code)
    ensures IsKernel(m, k, root, reg)
  {
    hide Returns, Closed, LowerTree, Rewritten;
    P.BodyWellFormed(m.cx.functions, root, reg);
    forall b | 0 <= b < |m.code| ensures Closed(m.code[b].code) {
      assert BlockWellFormed(m.code, b);
    }
    ReturnsRewrite(m.code, reg, Body(m.cx.functions, root, reg).value);
  }

  /** The finished kernel contains the chain that replaces a return. */
  lemma ChainWithin(body: seq<BasicBlock>, reg: Registry, g: Gen, b: nat, h: Gen)
    requires g.blocks == body && b < |body| && P.EndsInRet(body[b].code)
    requires h == Returns(body, reg, b, g) && |h.blocks[b].code| > 0
    ensures var all := Returns(body, reg, |body|, g).blocks;
            var e := Chain(body, reg, |reg|, Reopened(h, b));
            Within(Reopened(h, b), e, all) && Embeds(Emit(e, Ret), all)
  {
    hide Chain, Frame, P.EndsInRet, Within, Embeds, Emit;
    var start := Reopened(h, b);
    var e := Chain(body, reg, |reg|, start);
    var all := Returns(body, reg, |body|, g).blocks;
    ChainFrame(body, reg, |reg|, start);
    AllThere(body, reg, g, b + 1);
    forall c: nat | c < |e.blocks| && (c == b || |start.blocks| <= c)
      ensures c < |all| && all[c] == Emit(e, Ret).blocks[c]
    {
      ReturnsKeep(body, reg, b + 1, |body|, g, c);
    }
    RegionStays(start, e, all);
  }

  lemma RegionStays(g: Gen, e: Gen, all: seq<BasicBlock>)
    requires Frame(g, e) && |e.blocks| <= |all|
    requires forall c: nat | c < |e.blocks| && (c == g.ip || |g.blocks| <= c) :: all[c] == Emit(e, Ret).blocks[c]
    ensures Within(g, e, all) && Embeds(Emit(e, Ret), all)
  {
  }

  lemma {:induction false} AllThere(body: seq<BasicBlock>, reg: Registry, g: Gen, n: nat)
    requires g.blocks == body && n <= |body|
    ensures |Returns(body, reg, n, g).blocks| <= |Returns(body, reg, |body|, g).blocks|
    decreases |body| - n
  {
    hide Chain, P.EndsInRet;
    if n < |body| { AllThere(body, reg, g, n + 1); }
  }

  /** From a return of the body the kernel goes through the tests and returns. */
  lemma RunEpilogue(m: Machine, k: Machine, root: Stmts, reg: Registry, d: Config) returns (n: nat)
    requires IsKernel(m, k, root, reg) && Kernel(m.cx.functions, root, reg) == Some(k.code)
    requires AtReturn(m, d) && Distinct(reg)
    requires OwnIndices(m.args, reg) && BoolTest(m.cx.ops)
    ensures Run(k, d, n) == Halted(d.st, d.io.(voxels := d.io.voxels + Voxels(m.code, reg, |reg|, m.args, d.st.mem)))
  {
    hide Body, Rewritten, Returns, Chain, FunctionWellFormed, Execute, Within, Embeds, Voxels;
    var t := Body(m.cx.functions, root, reg).value;
    var h := Returns(m.code, reg, d.block, t);
    P.KernelWellFormed(m, k, root, reg);
    P.OnlyLastReturns(m.code, d.block, d.pc);
    ReturnsRest(m.code, reg, d.block, t, d.block);
    ChainWithin(m.code, reg, t, d.block, h);
    var start := Reopened(h, d.block);
    var n1, e := SimChain(k, m.code, reg, |reg|, start, d);
    StepEmitted(k, Chain(m.code, reg, |reg|, start), Ret, e);
    assert Step(k, e) == Halted(e.st, e.io) by { ExecuteRet(k, e); }
    assert Run(k, e, 1) == Halted(e.st, e.io);
    RunThen(k, d, n1, e, 1);
    n := n1 + 1;
  }

  lemma ExecuteRet(m: Machine, c: Config)
    ensures Execute(m, c, Ret) == Halted(c.st, c.io)
  {
  }

  lemma VolumeKernelRuns(m: Machine, k: Machine, root: Stmts, reg: Registry, attrs: Attributes, ext: int, fuel: nat)
    returns (n: nat)
    requires IsKernel(m, k, root, reg) && Kernel(m.cx.functions, root, reg) == Some(k.code)
    requires Distinct(reg) && Provides(attrs, reg) && OwnIndices(m.args, reg) && BoolTest(m.cx.ops)
    ensures var o := Exec(m.cx, Block(root), AttributeEnv(reg), BodyState(reg, attrs, State(map[], ext)), fuel);
            var p := Run(k, P.PointCall(attrs, ext), n);
            if o.Timeout? then p.Running? && n >= fuel
            else (o.Normal? || o.Returned?) &&
                 p == Halted(o.st, Io(attrs, Voxels(m.code, reg, |reg|, m.args, o.st.mem)))
  {
    hide IsKernel, Kernel, Exec, Voxels, OwnIndices, BoolTest;
    var c := P.PointCall(attrs, ext);
    var n1, d, c1 := KernelRuns(m, k, root, reg, c, fuel);
    var o := Exec(m.cx, Block(root), AttributeEnv(reg), BodyState(reg, attrs, c.st), fuel);
    n := n1;
    if !o.Timeout? {
      var n2 := RunEpilogue(m, k, root, reg, d);
      RunThen(k, c, n1, d, n2);
      assert [] + Voxels(m.code, reg, |reg|, m.args, d.st.mem) == Voxels(m.code, reg, |reg|, m.args, d.st.mem);
      n := n1 + n2;
    }
  }

  /** For every accepted program: a call of the volume kernel ends exactly when the program does, leaves
      every attribute it was given alone, and sets exactly the voxel it was asked to set. */
  lemma VolumeKernelCorrect(m: Machine, k: Machine, root: Stmts, reg: Registry, attrs: Attributes, ext: int,
                            voxels: seq<seq<int>>, ext1: int)
    requires IsKernel(m, k, root, reg) && Kernel(m.cx.functions, root, reg) == Some(k.code)
    requires Distinct(reg) && Provides(attrs, reg) && OwnIndices(m.args, reg) && BoolTest(m.cx.ops)
    ensures VolumeRuns(k, attrs, ext, voxels, ext1) <==> VolumeMeans(m, root, reg, attrs, ext, voxels, ext1)
  {
    hide IsKernel, Kernel, Exec, Voxels, OwnIndices, BoolTest;
    var st := BodyState(reg, attrs, State(map[], ext));
    var c := P.PointCall(attrs, ext);
    if VolumeMeans(m, root, reg, attrs, ext, voxels, ext1) {
      var final: State :| P.PointEnds(m.cx, root, reg, attrs, ext, final) &&
                          voxels == Voxels(m.code, reg, |reg|, m.args, final.mem) && ext1 == final.ext;
      var fuel: nat :| YieldsWithin(m.cx, root, AttributeEnv(reg), st, final, fuel);
      var n := VolumeKernelRuns(m, k, root, reg, attrs, ext, fuel);
      assert Run(k, c, n) == Halted(final, Io(attrs, voxels));
    }
    if VolumeRuns(k, attrs, ext, voxels, ext1) {
      var n: nat, last: State :| Run(k, c, n) == Halted(last, Io(attrs, voxels)) && last.ext == ext1;
      var n2 := VolumeKernelRuns(m, k, root, reg, attrs, ext, n + 1);
      if Run(k, c, n2).Running? {
        RunOver(k, c, n, n2);
      } else {
        RunsAgree(k, c, n, n2);
        assert YieldsWithin(m.cx, root, AttributeEnv(reg), st, last, n + 1);
        assert P.PointEnds(m.cx, root, reg, attrs, ext, last);
      }
    }
  }

  /** The value a voxel has after the kernel's assignments to it. */
  function SetTo(voxels: seq<seq<int>>, before: seq<int>): seq<int> {
    if voxels == [] then before else voxels[|voxels| - 1]
  }

  /**
  When the index asked for is that of attribute i, at most one voxel is set, and either way the voxel
  ends up with the value that the program leaves in the attribute: a skipped assignment is never missed.
  */
  lemma VoxelIsFinalValue(m: Machine, k: Machine, root: Stmts, reg: Registry, attrs: Attributes, ext: int,
                          final: State, i: nat)
    requires IsKernel(m, k, root, reg) && P.Covers(reg, root) && Provides(attrs, reg) && OwnIndices(m.args, reg)
    requires P.PointEnds(m.cx, root, reg, attrs, ext, final)
    requires i < |reg| && Selects(m.args, reg[i].key)
    ensures var voxels := Voxels(m.code, reg, |reg|, m.args, final.mem);
            |voxels| <= 1 && SetTo(voxels, attrs[reg[i].key]) == Cells(final.mem, i, SizeOf(reg[i].key))
  {
    hide IsKernel, Exec, Voxels, P.WrittenBack;
    VoxelsAre(m.code, reg, |reg|, m.args, final.mem);
    if !Target(m.code, reg, m.args, i) {
      var c := P.PointCall(attrs, ext);
      var fuel: nat :|
        YieldsWithin(m.cx, root, AttributeEnv(reg), BodyState(reg, attrs, State(map[], ext)), final, fuel);
      var n, d, c1 := KernelRuns(m, k, root, reg, c, fuel);
      var j: nat :| Run(m, c1, j) == Running(d);
      P.SkippedIsKept(m, k, root, reg, c, c1, j, fuel, i);
    }
  }
}
