/**
How often a slot is used in a function. A slot with a single use, the load in front of the body, is
never touched by the body, so skipping its write-back loses nothing.
*/
module Uses {
  import opened Types
  import opened Overloads
  import opened Semantics
  import opened Cfg
  import opened Lowering
  import opened InstrSimulation
  import opened Writes

  function OperandUses(o: Operand, slot: nat): nat {
    if o == Slot(slot) then 1 else 0
  }

  function OperandsUses(os: seq<Operand>, slot: nat): nat {
    if |os| == 0 then 0 else OperandUses(os[0], slot) + OperandsUses(os[1..], slot)
  }

  function ArmsUses(arms: seq<Arm>, slot: nat): nat {
    if |arms| == 0 then 0 else OperandUses(arms[0].val, slot) + ArmsUses(arms[1..], slot)
  }

  function InstrUses(i: Instr, slot: nat): nat {
    match i
    case Load(_, a) => OperandUses(a, slot)
    case Store(a, v) => OperandUses(a, slot) + OperandUses(v, slot)
    case Gep(_, b, n) => OperandUses(b, slot) + OperandUses(n, slot)
    case Element(_, b, _) => OperandUses(b, slot)
    case Pack(_, es) => OperandsUses(es, slot)
    case Product(_, _, a, _, b, _, _) => OperandUses(a, slot) + OperandUses(b, slot)
    case Arith(_, _, _, a, b) => OperandUses(a, slot) + OperandUses(b, slot)
    case Negate(_, _, _, a) => OperandUses(a, slot)
    case Conv(_, _, _, a) => OperandUses(a, slot)
    case Test(_, _, a) => OperandUses(a, slot)
    case Invoke(_, _, args) => OperandsUses(args, slot)
    case Phi(_, arms) => ArmsUses(arms, slot)
    case Br(_) => 0
    case CondBr(c, _, _) => OperandUses(c, slot)
    case Ret => 0
    case GetAttribute(_, s, _) => if s == slot then 1 else 0
    case SetAttribute(_, _, v) => OperandUses(v, slot)
    case IsTarget(_, _) => 0
    case SetVoxel(_, v) => OperandUses(v, slot)
  }

  function CodeUses(code: seq<Instr>, slot: nat): nat {
    if |code| == 0 then 0 else InstrUses(code[0], slot) + CodeUses(code[1..], slot)
  }

  function UsesOf(blocks: seq<BasicBlock>, slot: nat): nat {
    if |blocks| == 0 then 0 else CodeUses(blocks[0].code, slot) + UsesOf(blocks[1..], slot)
  }

  lemma {:induction false} CodeUsesSplit(a: seq<Instr>, b: seq<Instr>, slot: nat)
    ensures CodeUses(a + b, slot) == CodeUses(a, slot) + CodeUses(b, slot)
  {
    if |a| == 0 {
      assert a + b == b;
    } else {
      assert (a + b)[1..] == a[1..] + b;
      CodeUsesSplit(a[1..], b, slot);
    }
  }

  lemma {:induction false} InstrInCode(code: seq<Instr>, slot: nat, k: nat)
    requires k < |code|
    ensures InstrUses(code[k], slot) <= CodeUses(code, slot)
  {
    if k > 0 { InstrInCode(code[1..], slot, k - 1); }
  }

  lemma {:induction false} CodeInBlocks(blocks: seq<BasicBlock>, slot: nat, b: nat)
    requires b < |blocks|
    ensures CodeUses(blocks[b].code, slot) <= UsesOf(blocks, slot)
  {
    if b > 0 { CodeInBlocks(blocks[1..], slot, b - 1); }
  }

  /** When the loads account for all uses of a slot, nothing else mentions it. */
  lemma NothingElse(blocks: seq<BasicBlock>, getters: seq<Instr>, slot: nat, b: nat, k: nat)
    requires |blocks| > 0 && getters <= blocks[0].code && CodeUses(getters, slot) >= UsesOf(blocks, slot)
    requires b < |blocks| && k < |blocks[b].code| && (b == 0 ==> |getters| <= k)
    ensures InstrUses(blocks[b].code[k], slot) == 0
  {
    hide InstrUses;
    var rest := blocks[0].code[|getters|..];
    assert blocks[0].code == getters + rest;
    CodeUsesSplit(getters, rest, slot);
    if b == 0 {
      InstrInCode(rest, slot, k - |getters|);
    } else {
      InstrInCode(blocks[b].code, slot, k);
      CodeInBlocks(blocks[1..], slot, b - 1);
    }
  }

  /** The operands of an instruction; loading an attribute uses the slot it goes to. */
  function Operands(i: Instr): seq<Operand> {
    match i
    case Load(_, a) => [a]
    case Store(a, v) => [a, v]
    case Gep(_, b, n) => [b, n]
    case Element(_, b, _) => [b]
    case Pack(_, es) => es
    case Product(_, _, a, _, b, _, _) => [a, b]
    case Arith(_, _, _, a, b) => [a, b]
    case Negate(_, _, _, a) => [a]
    case Conv(_, _, _, a) => [a]
    case Test(_, _, a) => [a]
    case Invoke(_, _, args) => args
    case Phi(_, arms) => seq(|arms|, k requires 0 <= k < |arms| => arms[k].val)
    case CondBr(c, _, _) => [c]
    case GetAttribute(_, s, _) => [Slot(s)]
    case SetAttribute(_, _, v) => [v]
    case SetVoxel(_, v) => [v]
    case _ => []
  }

  lemma {:induction false} OperandsUsed(os: seq<Operand>, slot: nat)
    ensures OperandsUses(os, slot) > 0 <==> Slot(slot) in os
  {
    if |os| > 0 { OperandsUsed(os[1..], slot); }
  }

  lemma {:induction false} ArmsUsed(arms: seq<Arm>, slot: nat)
    ensures ArmsUses(arms, slot) > 0 <==> exists k :: 0 <= k < |arms| && arms[k].val == Slot(slot)
  {
    if |arms| > 0 {
      ArmsUsed(arms[1..], slot);
      if k :| 0 <= k < |arms| && arms[k].val == Slot(slot) {
        assert k > 0 ==> arms[1..][k - 1].val == Slot(slot);
      }
    }
  }

  /** An instruction uses a slot when it has the slot as an operand. */
  lemma UsesMentioned(i: Instr, slot: nat)
    ensures InstrUses(i, slot) > 0 <==> Slot(slot) in Operands(i)
  {
    match i
    case Pack(_, es) => OperandsUsed(es, slot);
    case Invoke(_, _, args) => OperandsUsed(args, slot);
    case Phi(_, arms) =>
      ArmsUsed(arms, slot);
      var os := Operands(i);
      assert forall k | 0 <= k < |arms| :: os[k] == arms[k].val;
    case _ =>
  }

  lemma {:induction false} SomeInstrUses(code: seq<Instr>, slot: nat)
    ensures CodeUses(code, slot) > 0 <==> exists k :: 0 <= k < |code| && Slot(slot) in Operands(code[k])
  {
    hide InstrUses, Operands;
    if |code| > 0 {
      SomeInstrUses(code[1..], slot);
      UsesMentioned(code[0], slot);
      if k :| 0 <= k < |code| && Slot(slot) in Operands(code[k]) {
        assert k > 0 ==> Slot(slot) in Operands(code[1..][k - 1]);
      }
    }
  }

  lemma {:induction false} SomeBlockUses(blocks: seq<BasicBlock>, slot: nat)
    ensures UsesOf(blocks, slot) > 0 <==>
              exists b, k :: 0 <= b < |blocks| && 0 <= k < |blocks[b].code| && Slot(slot) in Operands(blocks[b].code[k])
  {
    hide Operands;
    if |blocks| > 0 {
      SomeInstrUses(blocks[0].code, slot);
      SomeBlockUses(blocks[1..], slot);
      if UsesOf(blocks[1..], slot) > 0 {
        var b, k :| 0 <= b < |blocks[1..]| && 0 <= k < |blocks[1..][b].code| &&
                    Slot(slot) in Operands(blocks[1..][b].code[k]);
        assert blocks[b + 1] == blocks[1..][b];
      }
      if b, k :| 0 <= b < |blocks| && 0 <= k < |blocks[b].code| && Slot(slot) in Operands(blocks[b].code[k]) {
        assert b > 0 ==> Slot(slot) in Operands(blocks[1..][b - 1].code[k]);
      }
    }
  }

  /** Some instruction behind the first p of the entry has the slot as an operand. */
  ghost predicate MentionedBehind(blocks: seq<BasicBlock>, p: nat, slot: nat) {
    exists b, k :: 0 <= b < |blocks| && 0 <= k < |blocks[b].code| && (b == 0 ==> p <= k) &&
                   Slot(slot) in Operands(blocks[b].code[k])
  }

  /** The loads aside, a slot is used exactly when some instruction mentions it. */
  lemma UsesBehind(blocks: seq<BasicBlock>, getters: seq<Instr>, slot: nat)
    requires |blocks| > 0 && getters <= blocks[0].code
    ensures UsesOf(blocks, slot) > CodeUses(getters, slot) <==> MentionedBehind(blocks, |getters|, slot)
  {
    hide Operands;
    var rest := blocks[0].code[|getters|..];
    assert blocks[0].code == getters + rest;
    CodeUsesSplit(getters, rest, slot);
    SomeInstrUses(rest, slot);
    SomeBlockUses(blocks[1..], slot);
    if CodeUses(rest, slot) > 0 {
      var k :| 0 <= k < |rest| && Slot(slot) in Operands(rest[k]);
      assert blocks[0].code[|getters| + k] == rest[k];
    }
    if UsesOf(blocks[1..], slot) > 0 {
      var b, k :| 0 <= b < |blocks[1..]| && 0 <= k < |blocks[1..][b].code| &&
                  Slot(slot) in Operands(blocks[1..][b].code[k]);
      assert blocks[b + 1] == blocks[1..][b];
    }
    if MentionedBehind(blocks, |getters|, slot) {
      var b, k :| 0 <= b < |blocks| && 0 <= k < |blocks[b].code| && (b == 0 ==> |getters| <= k) &&
                  Slot(slot) in Operands(blocks[b].code[k]);
      if b == 0 {
        assert rest[k - |getters|] == blocks[0].code[k];
      } else {
        assert blocks[1..][b - 1] == blocks[b];
      }
    }
  }

  lemma {:induction false} UsesUpdate(blocks: seq<BasicBlock>, b: nat, block: BasicBlock, slot: nat)
    requires b < |blocks|
    ensures UsesOf(blocks[b := block], slot) + CodeUses(blocks[b].code, slot) == UsesOf(blocks, slot) +
      CodeUses(block.code, slot)
  {
    var now := blocks[b := block];
    if b == 0 {
      assert now[1..] == blocks[1..];
    } else {
      assert now[1..] == blocks[1..][b - 1 := block];
      UsesUpdate(blocks[1..], b - 1, block, slot);
    }
  }

  lemma OneInstrUses(i: Instr, slot: nat)
    ensures CodeUses([i], slot) == InstrUses(i, slot)
  {
    assert CodeUses([i][1..], slot) == 0;
  }

  /** An inserted instruction adds its own uses. */
  lemma UsesInserted(blocks: seq<BasicBlock>, b: nat, k: nat, i: Instr, slot: nat)
    requires b < |blocks| && k <= |blocks[b].code|
    ensures var code := blocks[b].code;
            UsesOf(blocks[b := blocks[b].(code := code[..k] + [i] + code[k..])], slot) ==
            UsesOf(blocks, slot) + InstrUses(i, slot)
  {
    var code := blocks[b].code;
    var now := code[..k] + [i] + code[k..];
    CodeUsesSplit(code[..k], code[k..], slot);
    assert code[..k] + code[k..] == code;
    CodeUsesSplit(code[..k] + [i], code[k..], slot);
    CodeUsesSplit(code[..k], [i], slot);
    OneInstrUses(i, slot);
    UsesUpdate(blocks, b, blocks[b].(code := now), slot);
  }

  lemma {:induction false} UsesAppend(blocks: seq<BasicBlock>, block: BasicBlock, slot: nat)
    ensures UsesOf(blocks + [block], slot) == UsesOf(blocks, slot) + CodeUses(block.code, slot)
  {
    if |blocks| == 0 {
      assert blocks + [block] == [block];
      assert [block][1..] == [];
    } else {
      assert (blocks + [block])[1..] == blocks[1..] + [block];
      UsesAppend(blocks[1..], block, slot);
    }
  }

  /** An instruction at the end of a block adds its own uses. */
  lemma UsesEmitted(g: Gen, i: Instr, slot: nat)
    ensures UsesOf(Emit(g, i).blocks, slot) == UsesOf(g.blocks, slot) + InstrUses(i, slot)
  {
    var code := Code(g, g.ip);
    assert code[..|code|] + [i] + code[|code|..] == code + [i];
    UsesInserted(g.blocks, g.ip, |code|, i, slot);
  }

  // ---------------------------------------------------------------------------------------
  // A slot that is not mentioned

  /** No register points to the slot. */
  ghost predicate NoPointer(regs: Registers, slot: nat) {
    forall r | r in regs && regs[r].Ptr? :: regs[r].a.slot != slot
  }

  lemma FetchElsewhere(regs: Registers, o: Operand, slot: nat)
    requires NoPointer(regs, slot) && OperandUses(o, slot) == 0
    ensures var v := Fetch(regs, o); v.Some? && v.value.Ptr? ==> v.value.a.slot != slot
  {
  }

  lemma {:induction false} EachUses(os: seq<Operand>, slot: nat)
    requires OperandsUses(os, slot) == 0
    ensures forall i | 0 <= i < |os| :: OperandUses(os[i], slot) == 0
  {
    if |os| > 0 {
      EachUses(os[1..], slot);
      assert forall i | 0 < i < |os| :: os[i] == os[1..][i - 1];
    }
  }

  /** A call writes to no slot that its arguments do not mention. */
  lemma CallElsewhere(m: Machine, c: Config, sig: Signature, args: seq<Operand>, slot: nat)
    requires NoPointer(c.regs, slot) && OperandsUses(args, slot) == 0
    requires |sig.params| == |args| && forall o | o in args :: Fetch(c.regs, o).Some?
    ensures var r := CallEffect(m.cx.ops, sig, ValuesOf(c.regs, args), c.st);
            !r.v.Ptr? && SameSlot(c.st.mem, r.st.mem, slot)
  {
    hide OperandUses, SameSlot, PutBehind, Behind, NoPointer;
    var vs := ValuesOf(c.regs, args);
    EachUses(args, slot);
    forall i | 0 <= i < |vs| ensures !PointsTo(vs[i], slot) {
      FetchElsewhere(c.regs, args[i], slot);
    }
    var called := m.cx.ops.call(sig, vs, Behind(sig.params, vs, c.st.mem), c.st.ext);
    PutElsewhere(sig.params, vs, called.cells, c.st.mem, |vs|, slot);
  }

  lemma {:induction false} ArmUses(arms: seq<Arm>, pred: nat, slot: nat)
    requires ArmsUses(arms, slot) == 0
    ensures var o := FindArm(arms, pred); o.Some? ==> OperandUses(o.value, slot) == 0
  {
    if |arms| > 0 && arms[0].pred != pred { ArmUses(arms[1..], pred, slot); }
  }

  /** One step of an instruction that does not mention the slot. */
  lemma StepElsewhere(m: Machine, c: Config, i: Instr, slot: nat)
    requires NoPointer(c.regs, slot) && InstrUses(i, slot) == 0
    ensures var p := Execute(m, c, i);
            p.Running? ==> NoPointer(p.c.regs, slot) && SameSlot(c.st.mem, p.c.st.mem, slot)
  {
    hide OperandUses, CallEffect;
    match i
    case Invoke(_, sig, args) =>
      if |sig.params| == |args| && forall o | o in args :: Fetch(c.regs, o).Some? {
        CallElsewhere(m, c, sig, args, slot);
      }
    case Store(a, v) => FetchElsewhere(c.regs, a, slot);
    case Gep(_, b, _) => FetchElsewhere(c.regs, b, slot);
    case Phi(_, arms) =>
      ArmUses(arms, c.prev, slot);
      var o := FindArm(arms, c.prev);
      if o.Some? { FetchElsewhere(c.regs, o.value, slot); }
    case _ =>
  }

  /** Past the first p instructions of the entry, nothing mentions the slot, and the entry is not
      branched to. */
  ghost predicate Unmentioned(m: Machine, p: nat, slot: nat) {
    forall b, k | 0 <= b < |m.code| && 0 <= k < |m.code[b].code| && (b == 0 ==> p <= k) ::
      InstrUses(m.code[b].code[k], slot) == 0 && 0 !in Targets(m.code[b].code[k])
  }

  lemma GoesOn(m: Machine, c: Config, i: Instr)
    ensures var p := Execute(m, c, i);
            p.Running? ==> (p.c.block == c.block && p.c.pc == c.pc + 1) || (p.c.block in Targets(i) && p.c.pc == 0)
  {
  }

  /** A slot the body does not mention keeps its contents, however long the body runs. */
  lemma {:induction false} RunElsewhere(m: Machine, c: Config, n: nat, p: nat, slot: nat)
    requires Unmentioned(m, p, slot) && NoPointer(c.regs, slot) && (c.block == 0 ==> p <= c.pc)
    requires Run(m, c, n).Running?
    ensures SameSlot(c.st.mem, Run(m, c, n).c.st.mem, slot)
    decreases n
  {
    hide Execute, NoPointer, SameSlot;
    SameAlways(slot);
    if n > 0 {
      var i := m.code[c.block].code[c.pc];
      StepElsewhere(m, c, i, slot);
      GoesOn(m, c, i);
      RunElsewhere(m, Step(m, c).c, n - 1, p, slot);
    }
  }
}
