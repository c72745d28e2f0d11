/**
The range function as it is emitted: its blocks, a small-step semantics for them, and the proof that
running them is running the loop of `RangeKernel`.
*/
module RangeGenerator {
  import opened Types
  import opened Cfg
  import opened RangeKernel

  /** Operands are 64-bit words: the point count the function is called with, constants, registers. */
  datatype Word = PointCount | Number(n: nat) | Register(r: nat)

  datatype Incoming = Incoming(from: nat, word: Word)

  datatype RangeInstr =
    | Subtract(dest: nat, a: Word, b: Word)
    | Sum(dest: nat, a: Word, b: Word)
    | Below(dest: nat, a: Word, b: Word)
    | Merge(dest: nat, incoming: seq<Incoming>)
    | CallPoint(index: Word)
    | Jump(to: nat)
    | Branch(test: Word, ifTrue: nat, ifFalse: nat)
    | Return

  type RangeBlocks = seq<seq<RangeInstr>>

  // ---------------------------------------------------------------------------------------
  // The code

  function RangeCode(): RangeBlocks {
    [
      [Subtract(0, PointCount, Number(1)), Jump(1)],
      [
        Merge(1, [Incoming(0, Number(0)), Incoming(1, Register(2))]),
        CallPoint(Register(1)),
        Sum(2, Register(1), Number(1)),
        Below(3, Register(1), Register(0)),
        Branch(Register(3), 1, 2)
      ],
      [Return]
    ]
  }

  method Append(blocks: RangeBlocks, b: nat, i: RangeInstr) returns (more: RangeBlocks)
    requires b < |blocks|
    ensures more == blocks[b := blocks[b] + [i]]
  {
    more := blocks[b := blocks[b] + [i]];
  }

  /** Emit the range function. The second value of the counter is known only after the loop was emitted. */
  method GenerateRange() returns (blocks: RangeBlocks)
    ensures blocks == RangeCode()
  {
    var preLoop: nat := 0;
    blocks := [[]];
    blocks := Append(blocks, preLoop, Subtract(0, PointCount, Number(1)));
    var loop: nat := |blocks|;
    blocks := blocks + [[]];
    blocks := Append(blocks, preLoop, Jump(loop));
    blocks := Append(blocks, loop, Merge(1, [Incoming(preLoop, Number(0))]));
    blocks := Append(blocks, loop, CallPoint(Register(1)));
    blocks := Append(blocks, loop, Sum(2, Register(1), Number(1)));
    blocks := Append(blocks, loop, Below(3, Register(1), Register(0)));
    var postLoop: nat := |blocks|;
    blocks := blocks + [[]];
    blocks := Append(blocks, loop, Branch(Register(3), loop, postLoop));
    var counter := blocks[loop][0];
    var patched := counter.(incoming := counter.incoming + [Incoming(loop, Register(2))]);
    assert patched.incoming == [Incoming(0, Number(0)), Incoming(1, Register(2))];
    blocks := blocks[loop := blocks[loop][0 := patched]];
    blocks := Append(blocks, postLoop, Return);
    assert blocks[0] == RangeCode()[0] && blocks[1] == RangeCode()[1] && blocks[2] == RangeCode()[2];
  }

  // ---------------------------------------------------------------------------------------
  // Running it

  datatype RangeConfig = RangeConfig(block: nat, prev: nat, pc: nat, regs: map<nat, nat>, leaf: Leaf)

  function Fetch(w: Word, count: nat, regs: map<nat, nat>): Option<nat> {
    match w
    case PointCount => Some(count)
    case Number(n) => Some(n)
    case Register(r) => if r in regs then Some(regs[r]) else None
  }

  /** The configuration after an instruction that defines a register. */
  function Defined(c: RangeConfig, r: nat, n: nat): RangeConfig {
    c.(pc := c.pc + 1, regs := c.regs[r := n])
  }

  function Entered(c: RangeConfig, b: nat): RangeConfig {
    c.(block := b, prev := c.block, pc := 0)
  }

  /** One step; a call of the point kernel takes as long as it takes, and may never come back. */
  ghost predicate RangeStep(k: Machine, code: RangeBlocks, count: nat, c: RangeConfig, d: RangeConfig) {
    c.block < |code| && c.pc < |code[c.block]| &&
    match code[c.block][c.pc]
    case Subtract(r, a, b) =>
      var x, y := Fetch(a, count, c.regs), Fetch(b, count, c.regs);
      x.Some? && y.Some? && d == Defined(c, r, Sub64(x.value, y.value))
    case Sum(r, a, b) =>
      var x, y := Fetch(a, count, c.regs), Fetch(b, count, c.regs);
      x.Some? && y.Some? && d == Defined(c, r, Add64(x.value, y.value))
    case Below(r, a, b) =>
      var x, y := Fetch(a, count, c.regs), Fetch(b, count, c.regs);
      x.Some? && y.Some? && d == Defined(c, r, if x.value < y.value then 1 else 0)
    case Merge(r, incoming) =>
      exists j | 0 <= j < |incoming| :: incoming[j].from == c.prev && Fetch(incoming[j].word, count, c.regs).Some? &&
        d == Defined(c, r, Fetch(incoming[j].word, count, c.regs).value)
    case CallPoint(index) =>
      var i := Fetch(index, count, c.regs);
      i.Some? && Call(k, i.value, c.leaf, d.leaf) && d == c.(pc := c.pc + 1, leaf := d.leaf)
    case Jump(b) => d == Entered(c, b)
    case Branch(test, t, f) =>
      var x := Fetch(test, count, c.regs);
      x.Some? && d == Entered(c, if x.value == 1 then t else f)
    case Return => false
  }

  ghost predicate RangeSteps(k: Machine, code: RangeBlocks, count: nat, c: RangeConfig, d: RangeConfig, n: nat)
    decreases n
  {
    if n == 0 then c == d
    else exists e: RangeConfig :: RangeStep(k, code, count, c, e) && RangeSteps(k, code, count, e, d, n - 1)
  }

  predicate AtEnd(code: RangeBlocks, c: RangeConfig) {
    c.block < |code| && c.pc < |code[c.block]| && code[c.block][c.pc] == Return
  }

  function Entry(before: Leaf): RangeConfig {
    RangeConfig(0, 0, 0, map[], before)
  }

  /** The range function, called with a point count, returns and leaves these attribute values. */
  ghost predicate RangeReturns(k: Machine, code: RangeBlocks, count: nat, before: Leaf, after: Leaf) {
    exists n: nat, d: RangeConfig ::
      RangeSteps(k, code, count, Entry(before), d, n) && AtEnd(code, d) && d.leaf == after
  }

  // ---------------------------------------------------------------------------------------
  // The loop

  /** At the head of the loop, about to call the kernel for point i. */
  predicate AtLoop(count: nat, c: RangeConfig, i: nat) {
    c.block == 1 && c.pc == 0 && 0 in c.regs && c.regs[0] == Sub64(count, 1) &&
    ((c.prev == 0 && i == 0) || (c.prev == 1 && 2 in c.regs && c.regs[2] == i))
  }

  /** The configuration after one round that has left the leaf in state `mid`. */
  function AfterRound(count: nat, c: RangeConfig, i: nat, mid: Leaf): RangeConfig {
    var more := i < Sub64(count, 1);
    RangeConfig(if more then 1 else 2, 1, 0, c.regs[1 := i][2 := Add64(i, 1)][3 := if more then 1 else 0], mid)
  }

  lemma {:induction false} StepsOn(
    k: Machine, code: RangeBlocks, count: nat, c: RangeConfig, e: RangeConfig, d: RangeConfig, n: nat, m: nat)
    requires RangeSteps(k, code, count, c, e, n) && RangeSteps(k, code, count, e, d, m)
    ensures RangeSteps(k, code, count, c, d, n + m)
    decreases n
  {
    hide RangeStep;
    if n > 0 {
      var b: RangeConfig :| RangeStep(k, code, count, c, b) && RangeSteps(k, code, count, b, e, n - 1);
      StepsOn(k, code, count, b, e, d, n - 1, m);
    }
  }

  lemma OneStep(k: Machine, code: RangeBlocks, count: nat, c: RangeConfig, d: RangeConfig)
    requires RangeStep(k, code, count, c, d)
    ensures RangeSteps(k, code, count, c, d, 1)
  {
    assert RangeSteps(k, code, count, d, d, 0);
  }

  lemma RoundSteps(k: Machine, count: nat, c: RangeConfig, i: nat, mid: Leaf)
    requires AtLoop(count, c, i) && Call(k, i, c.leaf, mid)
    ensures var c1 := Defined(c, 1, i);
            var c2 := c1.(pc := 2, leaf := mid);
            var c3 := Defined(c2, 2, Add64(i, 1));
            var c4 := Defined(c3, 3, if i < Sub64(count, 1) then 1 else 0);
            RangeStep(k, RangeCode(), count, c, c1) && RangeStep(k, RangeCode(), count, c1, c2) &&
            RangeStep(k, RangeCode(), count, c2, c3) && RangeStep(k, RangeCode(), count, c3, c4) &&
            RangeStep(k, RangeCode(), count, c4, AfterRound(count, c, i, mid))
  {
    hide Call;
    var incoming := RangeCode()[1][0].incoming;
    assert incoming[c.prev].from == c.prev;
  }

  /** One round of the loop takes five steps. */
  lemma Round(k: Machine, count: nat, c: RangeConfig, i: nat, mid: Leaf)
    requires AtLoop(count, c, i) && Call(k, i, c.leaf, mid)
    ensures RangeSteps(k, RangeCode(), count, c, AfterRound(count, c, i, mid), 5)
  {
    hide Call, RangeStep, RangeSteps, RangeCode;
    var code := RangeCode();
    var c1 := Defined(c, 1, i);
    var c2 := c1.(pc := 2, leaf := mid);
    var c3 := Defined(c2, 2, Add64(i, 1));
    var c4 := Defined(c3, 3, if i < Sub64(count, 1) then 1 else 0);
    var c5 := AfterRound(count, c, i, mid);
    RoundSteps(k, count, c, i, mid);
    OneStep(k, code, count, c, c1);
    OneStep(k, code, count, c1, c2);
    OneStep(k, code, count, c2, c3);
    OneStep(k, code, count, c3, c4);
    OneStep(k, code, count, c4, c5);
    StepsOn(k, code, count, c, c1, c2, 1, 1);
    StepsOn(k, code, count, c, c2, c3, 2, 1);
    StepsOn(k, code, count, c, c3, c4, 3, 1);
    StepsOn(k, code, count, c, c4, c5, 4, 1);
  }

  /** What one step inside the loop must have done. */
  lemma LoopStep(k: Machine, count: nat, c: RangeConfig, e: RangeConfig)
    requires c.block == 1 && c.pc < 5 && RangeStep(k, RangeCode(), count, c, e)
    ensures match c.pc
            case 0 => c.prev == 0 || c.prev == 1 ==>
              e == Defined(c, 1, if c.prev == 0 then 0 else if 2 in c.regs then c.regs[2] else 0)
            case 1 => 1 in c.regs && Call(k, c.regs[1], c.leaf, e.leaf) && e == c.(pc := 2, leaf := e.leaf)
            case 2 => 1 in c.regs && e == Defined(c, 2, Add64(c.regs[1], 1))
            case 3 => 0 in c.regs && 1 in c.regs && e == Defined(c, 3, if c.regs[1] < c.regs[0] then 1 else 0)
            case _ => 3 in c.regs && e == Entered(c, if c.regs[3] == 1 then 1 else 2)
  {
    hide Call;
  }

  /** A run that is not over takes another step. */
  lemma Peel(k: Machine, count: nat, c: RangeConfig, d: RangeConfig, n: nat) returns (e: RangeConfig)
    requires RangeSteps(k, RangeCode(), count, c, d, n) && AtEnd(RangeCode(), d) && c.block < 2
    ensures n > 0 && RangeStep(k, RangeCode(), count, c, e) && RangeSteps(k, RangeCode(), count, e, d, n - 1)
  {
    hide RangeStep;
    EndIs(d);
    e :| RangeStep(k, RangeCode(), count, c, e) && RangeSteps(k, RangeCode(), count, e, d, n - 1);
  }

  /** A run from the head of the loop to the return makes one round at least. */
  lemma RoundMade(k: Machine, count: nat, c: RangeConfig, i: nat, d: RangeConfig, n: nat) returns (mid: Leaf)
    requires AtLoop(count, c, i) && RangeSteps(k, RangeCode(), count, c, d, n) && AtEnd(RangeCode(), d)
    ensures n >= 5 && Call(k, i, c.leaf, mid)
    ensures RangeSteps(k, RangeCode(), count, AfterRound(count, c, i, mid), d, n - 5)
  {
    hide Call, RangeStep, RangeSteps, RangeCode, AtEnd;
    var c1 := Peel(k, count, c, d, n);
    LoopStep(k, count, c, c1);
    var c2 := Peel(k, count, c1, d, n - 1);
    LoopStep(k, count, c1, c2);
    mid := c2.leaf;
    var c3 := Peel(k, count, c2, d, n - 2);
    LoopStep(k, count, c2, c3);
    var c4 := Peel(k, count, c3, d, n - 3);
    LoopStep(k, count, c3, c4);
    var c5 := Peel(k, count, c4, d, n - 4);
    LoopStep(k, count, c4, c5);
    assert c5 == AfterRound(count, c, i, mid);
  }

  lemma {:induction false} LoopReturns(
    k: Machine, count: nat, c: RangeConfig, i: nat, after: Leaf, rounds: nat) returns (n: nat, d: RangeConfig)
    requires AtLoop(count, c, i) && LoopRuns(k, count, i, c.leaf, after, rounds)
    ensures RangeSteps(k, RangeCode(), count, c, d, n) && AtEnd(RangeCode(), d) && d.leaf == after
    decreases rounds
  {
    hide Call, RangeSteps, RangeCode;
    var mid: Leaf :| Call(k, i, c.leaf, mid) && GoesOn(CallsOf(k), count, i, mid, after, rounds);
    Round(k, count, c, i, mid);
    var e := AfterRound(count, c, i, mid);
    if i < Sub64(count, 1) {
      var m;
      m, d := LoopReturns(k, count, e, Add64(i, 1), after, rounds - 1);
      StepsOn(k, RangeCode(), count, c, e, d, 5, m);
      n := 5 + m;
    } else {
      n, d := 5, e;
      EndIs(d);
    }
  }

  lemma EndIs(d: RangeConfig)
    ensures AtEnd(RangeCode(), d) <==> d.block == 2 && d.pc == 0
  {
    assert forall b, p | 0 <= b < 2 && 0 <= p < |RangeCode()[b]| :: RangeCode()[b][p] != Return;
  }

  lemma {:induction false} ReturnsLoop(
    k: Machine, count: nat, c: RangeConfig, i: nat, d: RangeConfig, n: nat) returns (rounds: nat)
    requires AtLoop(count, c, i) && RangeSteps(k, RangeCode(), count, c, d, n) && AtEnd(RangeCode(), d)
    ensures LoopRuns(k, count, i, c.leaf, d.leaf, rounds)
    decreases n
  {
    hide Call, RangeCode;
    var mid := RoundMade(k, count, c, i, d, n);
    var e := AfterRound(count, c, i, mid);
    if i < Sub64(count, 1) {
      rounds := ReturnsLoop(k, count, e, Add64(i, 1), d, n - 5);
      rounds := rounds + 1;
    } else {
      rounds := 1;
      NoStepFromEnd(k, count, e, d, n - 5);
    }
    assert GoesOn(CallsOf(k), count, i, mid, d.leaf, rounds);
  }

  lemma NoStepFromEnd(k: Machine, count: nat, c: RangeConfig, d: RangeConfig, n: nat)
    requires c.block == 2 && c.pc == 0 && RangeSteps(k, RangeCode(), count, c, d, n)
    ensures c == d
  {
  }

  /** The code in front of the loop takes two steps. */
  lemma Preamble(k: Machine, count: nat, before: Leaf)
    ensures var c1 := Defined(Entry(before), 0, Sub64(count, 1));
            RangeStep(k, RangeCode(), count, Entry(before), c1) &&
            RangeStep(k, RangeCode(), count, c1, Entered(c1, 1))
    ensures forall e :: RangeStep(k, RangeCode(), count, Entry(before), e) ==>
              e == Defined(Entry(before), 0, Sub64(count, 1))
    ensures var c1 := Defined(Entry(before), 0, Sub64(count, 1));
            forall e :: RangeStep(k, RangeCode(), count, c1, e) ==> e == Entered(c1, 1)
  {
    hide Call;
  }

  /** Running the emitted blocks is running the loop. */
  lemma EmittedIsLoop(k: Machine, count: nat, before: Leaf, after: Leaf)
    ensures RangeReturns(k, RangeCode(), count, before, after) <==> RangeRuns(k, count, before, after)
  {
    hide LoopRuns, RangeStep, RangeSteps, RangeCode, AtEnd;
    var code := RangeCode();
    var c := Entry(before);
    var c1 := Defined(c, 0, Sub64(count, 1));
    var c2 := Entered(c1, 1);
    Preamble(k, count, before);
    if RangeRuns(k, count, before, after) {
      var rounds: nat :| LoopRuns(k, count, 0, before, after, rounds);
      var n, d := LoopReturns(k, count, c2, 0, after, rounds);
      OneStep(k, code, count, c, c1);
      OneStep(k, code, count, c1, c2);
      StepsOn(k, code, count, c, c1, c2, 1, 1);
      StepsOn(k, code, count, c, c2, d, 2, n);
    }
    if RangeReturns(k, code, count, before, after) {
      var n: nat, d: RangeConfig :|
        RangeSteps(k, code, count, c, d, n) && AtEnd(code, d) && d.leaf == after;
      var e1 := Peel(k, count, c, d, n);
      var e2 := Peel(k, count, c1, d, n - 1);
      var rounds := ReturnsLoop(k, count, c2, 0, d, n - 2);
    }
  }
}
